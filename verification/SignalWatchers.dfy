/** The signal watchers of libuv/src/unix/signal.c: a process-wide tree of watchers, a handler that
    walks it under a lock, and a pipe of messages per event loop.  The loops read and dispatch without
    that lock, so every write and every count of the handler is a step of its own. */
module SignalWatchers {
  import opened Options
  import opened TreeOrder
  import opened TreeShape
  import opened TreeBalance
  import opened RedBlackTree

  /** A record in the pipe of a loop. */
  datatype Message = Message(handle: int, signum: int)

  /** Where a watcher is in the tree: by signal number, loop and address. */
  function KeyOf(signum: int, loop: int, address: int): Key {
    Key(signum, loop, address)
  }

  /** What the tree contains: the watchers that watch a signal. */
  ghost function Entries(handles: map<int, Node>, loopOf: map<int, int>, signum: map<int, int>): set<Element>
    requires signum.Keys == handles.Keys == loopOf.Keys
  {
    set a | a in signum && signum[a] != 0 :: Element(handles[a], KeyOf(signum[a], loopOf[a], a))
  }

  ghost predicate Watched(signum: map<int, int>, s: int) {
    exists a :: a in signum && signum[a] == s
  }

  // ---- messages ----

  /** How many messages name a watcher. */
  function Count(ms: seq<Message>, a: int): nat {
    if ms == [] then 0 else (if ms[0].handle == a then 1 else 0) + Count(ms[1..], a)
  }

  lemma {:induction false} CountSplit(u: seq<Message>, v: seq<Message>, a: int)
    ensures Count(u + v, a) == Count(u, a) + Count(v, a)
  {
    if u == [] {
      assert u + v == v;
    } else {
      assert (u + v)[1..] == u[1..] + v;
      CountSplit(u[1..], v, a);
    }
  }

  /** Of every watcher as many signals were caught and not dispatched as there are messages for it,
      in the pipe of its loop or already read from it; the message for `uncounted` is written, but not
      counted as caught yet. */
  ghost predicate Accounted(loopOf: map<int, int>, caught: map<int, nat>, dispatched: map<int, nat>,
                            reading: map<int, seq<Message>>, pipe: map<int, seq<Message>>, uncounted: Option<int>) {
    && caught.Keys == dispatched.Keys == loopOf.Keys
    && reading.Keys == pipe.Keys
    && (forall a | a in loopOf :: loopOf[a] in pipe && 0 < loopOf[a])
    && (forall a | a in loopOf ::
          caught[a] + (if uncounted == Some(a) then 1 else 0)
            == dispatched[a] + Count(reading[loopOf[a]], a) + Count(pipe[loopOf[a]], a))
    && (uncounted.Some? ==> uncounted.value in loopOf)
    && (forall l, m | l in pipe && m in pipe[l] :: m.handle in loopOf && loopOf[m.handle] == l && m.signum != 0)
    && (forall l, m | l in pipe && m in reading[l] :: m.handle in loopOf && loopOf[m.handle] == l && m.signum != 0)
  }

  /** A closing watcher watches nothing, and its close is pending, once, if no message names it. */
  ghost predicate Closes(signum: map<int, int>, caught: map<int, nat>, dispatched: map<int, nat>,
                         closing: set<int>, closePending: map<int, nat>) {
    && signum.Keys == caught.Keys == dispatched.Keys == closePending.Keys
    && (forall a | a in closing :: a in signum && signum[a] == 0)
    && (forall a | a in closePending ::
          closePending[a] == if a in closing && caught[a] == dispatched[a] then 1 else 0)
  }

  /** The loops of `busy` have a message at hand. */
  ghost predicate InCallbacks(busy: set<int>, reading: map<int, seq<Message>>) {
    forall l | l in busy :: l in reading && reading[l] != []
  }

  function Zero(keys: set<int>): (m: map<int, nat>)
    ensures m.Keys == keys && forall a | a in m :: m[a] == 0
  {
    map a | a in keys :: 0
  }

  function Empty(loops: set<int>): (m: map<int, seq<Message>>)
    ensures m.Keys == loops && forall l | l in m :: m[l] == []
  {
    map l | l in loops :: []
  }

  /** Before anything has happened. */
  lemma EmptyBooks(handles: map<int, Node>, loopOf: map<int, int>)
    requires handles.Keys == loopOf.Keys && forall a | a in loopOf :: 0 < loopOf[a]
    ensures var zero, empty := Zero(handles.Keys), Empty(loopOf.Values);
      Accounted(loopOf, zero, zero, empty, empty, None) && Closes(zero, zero, zero, {}, zero)
  {
  }

  class Process {
    const heap: Head
    const handles: map<int, Node>
    const loopOf: map<int, int>
    /** The fields of the watchers. */
    var signum: map<int, int>
    var caught: map<int, nat>
    var dispatched: map<int, nat>
    var closing: set<int>
    /** How often uv__make_close_pending was called. */
    var closePending: map<int, nat>
    /** The pipes of the loops, and what uv__signal_event has read and not dispatched yet. */
    var pipe: map<int, seq<Message>>
    var reading: map<int, seq<Message>>
    /** The signals for which the handler is installed. */
    var installed: set<int>
    /** The loops that are in a callback of uv__signal_event, and the callbacks called. */
    var busy: set<int>
    var calls: seq<Message>
    /** How many messages a pipe holds. */
    const capacity: nat
    /** A handler holds the lock: it handles `signal`, has come to the watcher of `cursor`, and has
        written a message to `uncounted` that it has not counted yet. */
    var locked: bool
    var signal: int
    var cursor: Node?
    var uncounted: Option<int>
    /** An assertion of the program has failed. */
    var aborted: bool
    /** The elements of the tree from `from` to `at`, those watchers, are done. */
    ghost var from: nat
    ghost var at: nat
    ghost var visited: set<int>
    ghost const nodes: set<Node>

    ghost predicate TreeValid()
      reads `signum, heap, nodes
    {
      && Injective(handles) && nodes == (set a | a in handles :: handles[a])
      && Nodes(heap.tree) <= nodes && heap.Valid()
      && signum.Keys == handles.Keys == loopOf.Keys
      && heap.Contents() == Entries(handles, loopOf, signum)
      && (forall a | a in signum && signum[a] != 0 :: handles[a].key == KeyOf(signum[a], loopOf[a], a))
    }

    ghost predicate Books()
      reads `signum, `caught, `dispatched, `closing, `closePending, `pipe, `reading, `installed, `busy, `uncounted
    {
      && Accounted(loopOf, caught, dispatched, reading, pipe, uncounted)
      && Closes(signum, caught, dispatched, closing, closePending)
      && (forall s :: s in installed <==> s != 0 && Watched(signum, s))
      && InCallbacks(busy, reading)
      && (forall l | l in pipe :: |pipe[l]| <= capacity)
      && (uncounted.Some? ==> uncounted.value in signum && signum[uncounted.value] != 0)
    }

    /** The walk of the handler is in the middle of the watchers of its signal. */
    ghost predicate Walking()
      reads `locked, `signal, `cursor, `uncounted, `from, `at, `visited, heap
    {
      && (uncounted.Some? ==> locked)
      && (locked ==> InWalk(Elements(heap.tree), signal, from, at, cursor, visited, uncounted))
    }

    ghost predicate Valid()
      reads this, heap, nodes
    {
      TreeValid() && Books() && Walking()
    }

    constructor (handles: map<int, Node>, loopOf: map<int, int>, capacity: nat)
      requires Injective(handles) && handles.Keys == loopOf.Keys && forall a | a in loopOf :: 0 < loopOf[a]
      ensures Valid() && fresh(heap) && !locked && !aborted
    {
      this.capacity := capacity;
      locked, signal, cursor, uncounted, aborted := false, 0, null, None, false;
      from, at, visited := 0, 0, {};
      heap := new Head();
      this.handles, this.loopOf := handles, loopOf;
      var zero := Zero(handles.Keys);
      signum, caught, dispatched, closing, closePending := zero, zero, zero, {}, zero;
      pipe, reading := Empty(loopOf.Values), Empty(loopOf.Values);
      installed, busy, calls := {}, {}, [];
      nodes := set a | a in handles :: handles[a];
      new;
      hide Process.Valid, Process.TreeValid, Zero, Empty;
      EmptyTree();
      NothingYet();
    }

    lemma NothingYet()
      requires TreeValid() && handles.Keys == loopOf.Keys && forall a | a in loopOf :: 0 < loopOf[a]
      requires var zero := Zero(handles.Keys);
        signum == zero && caught == zero && dispatched == zero && closing == {} && closePending == zero
      requires pipe == Empty(loopOf.Values) && reading == pipe
      requires installed == {} && busy == {} && !locked && uncounted == None
      ensures Valid()
    {
      hide Process.TreeValid, Accounted, Closes, Zero, Empty, InWalk;
      EmptyBooks(handles, loopOf);
    }

    lemma EmptyTree()
      requires heap.Valid() && heap.Contents() == {}
      requires Injective(handles) && nodes == (set a | a in handles :: handles[a])
      requires signum.Keys == handles.Keys == loopOf.Keys && forall a | a in signum :: signum[a] == 0
      ensures TreeValid()
    {
      NoMembers(Elements(heap.tree));
      NoNodes(heap.tree);
      hide Elements, Nodes, Zip, Shape, RedBlack, Sorted;
      assert Entries(handles, loopOf, signum) == {};
    }

    /** A watcher's node is in the tree exactly while it watches a signal. */
    lemma NodesInTree()
      requires TreeValid()
      ensures Nodes(heap.tree) == set a | a in signum && signum[a] != 0 :: handles[a]
      ensures forall a | a in handles :: handles[a] in Nodes(heap.tree) <==> signum[a] != 0
      ensures forall a | a in handles && signum[a] != 0 ::
        Element(handles[a], KeyOf(signum[a], loopOf[a], a)) in heap.Contents()
    {
      hide Zip, RedBlack, Sorted, Elements, Nodes;
      NodesOfElements(heap.tree);
      forall n | n in Nodes(heap.tree) ensures exists a :: a in signum && signum[a] != 0 && handles[a] == n {
        var e :| e in Elements(heap.tree) && e.node == n;
        assert e in heap.Contents();
      }
      forall a | a in handles && signum[a] != 0 ensures handles[a] in Nodes(heap.tree) {
        assert Element(handles[a], KeyOf(signum[a], loopOf[a], a)) in heap.Contents();
      }
    }

    lemma NodesWithin(s: map<int, int>)
      requires s.Keys == handles.Keys == loopOf.Keys && heap.Contents() == Entries(handles, loopOf, s)
      requires nodes == (set a | a in handles :: handles[a])
      ensures Nodes(heap.tree) <= nodes
    {
      hide Elements, Nodes;
      NodesOfElements(heap.tree);
      forall n | n in Nodes(heap.tree) ensures n in nodes {
        var e :| e in Elements(heap.tree) && e.node == n;
        assert e in heap.Contents();
      }
    }

    /** uv__signal_first_handle: the first watcher of a signal in the order of the tree. */
    method FirstHandle(s: int) returns (node: Node?, ghost i: nat)
      requires TreeValid() && (forall a | a in loopOf :: 0 < loopOf[a])
      ensures i <= |Elements(heap.tree)|
      ensures node == if i < |Elements(heap.tree)| && Elements(heap.tree)[i].key.major == s
                      then Elements(heap.tree)[i].node else null
      ensures forall k | 0 <= k < i :: Elements(heap.tree)[k].key.major < s
      ensures forall k | i <= k < |Elements(heap.tree)| :: s <= Elements(heap.tree)[k].key.major
    {
      hide Zip, RedBlack, Sorted, Elements, Nodes, Shape, Less;
      ghost var es := Elements(heap.tree);
      TreeElements();
      node := heap.FindAtLeast(Key(s, 0, 0));
      i := |es|;
      if node == null {
        AllBelow(es, s);
      } else {
        i :| FirstAtLeast(es, Key(s, 0, 0), i) && es[i].node == node;
        FirstOfSignal(es, s, i);
        if node.key.major != s {
          node := null;
        }
      }
    }

    /** Other watchers of the signal are in the tree if and only if there is a first one. */
    lemma FirstMeansWatched(s: int, node: Node?, i: nat)
      requires TreeValid() && s != 0 && i <= |Elements(heap.tree)|
      requires node == if i < |Elements(heap.tree)| && Elements(heap.tree)[i].key.major == s
                       then Elements(heap.tree)[i].node else null
      requires forall k | 0 <= k < i :: Elements(heap.tree)[k].key.major < s
      requires forall k | i <= k < |Elements(heap.tree)| :: s <= Elements(heap.tree)[k].key.major
      ensures node != null <==> Watched(signum, s)
    {
      var es := Elements(heap.tree);
      NodesInTree();
      hide Zip, RedBlack, Elements, Nodes, Shape;
      if node != null {
        assert es[i] in heap.Contents();
      }
      if Watched(signum, s) {
        var a :| a in signum && signum[a] == s;
        var e := Element(handles[a], KeyOf(signum[a], loopOf[a], a));
        assert e in heap.Contents();
        var k :| 0 <= k < |es| && es[k] == e;
        assert i <= k && es[i].key.major <= es[k].key.major by {
          if i < k { assert Less(es[i].key, es[k].key); }
        }
      }
    }

    lemma TreeIsValid()
      requires TreeValid()
      ensures heap.Valid() && signum.Keys == handles.Keys == loopOf.Keys
    {
    }

    /** The elements of the tree are the watchers, each once. */
    lemma TreeElements()
      requires TreeValid()
      ensures forall k | 0 <= k < |Elements(heap.tree)| :: (
        var e := Elements(heap.tree)[k];
        && e.key.address in signum && e.node == handles[e.key.address]
        && e.key == KeyOf(signum[e.key.address], loopOf[e.key.address], e.key.address)
        && e.node.key == e.key && signum[e.key.address] != 0)
      ensures forall j, k | 0 <= j < k < |Elements(heap.tree)| ::
        Elements(heap.tree)[j].key.address != Elements(heap.tree)[k].key.address
      ensures forall j, k | 0 <= j < k < |Elements(heap.tree)| ::
        Elements(heap.tree)[j].key.major <= Elements(heap.tree)[k].key.major
    {
      hide Zip, RedBlack, Elements, Nodes, Shape;
      var es := Elements(heap.tree);
      forall k | 0 <= k < |es|
        ensures var e := es[k];
          && e.key.address in signum && e.node == handles[e.key.address]
          && e.key == KeyOf(signum[e.key.address], loopOf[e.key.address], e.key.address)
          && e.node.key == e.key && signum[e.key.address] != 0
      {
        assert es[k] in heap.Contents();
      }
      forall j, k | 0 <= j < k < |es|
        ensures es[j].key.address != es[k].key.address && es[j].key.major <= es[k].key.major
      {
        assert Less(es[j].key, es[k].key);
      }
    }

    /** The walk has visited every watcher of the signal. */
    lemma AllVisited(s: int, visited: set<int>, start: nat, end: nat)
      requires TreeValid() && s != 0 && start <= end <= |Elements(heap.tree)|
      requires forall k | 0 <= k < start :: Elements(heap.tree)[k].key.major < s
      requires end < |Elements(heap.tree)| ==> Elements(heap.tree)[end].key.major != s
      requires forall k | start <= k < |Elements(heap.tree)| :: s <= Elements(heap.tree)[k].key.major
      requires visited == Addresses(Elements(heap.tree), start, end)
      ensures forall a | a in signum && signum[a] == s :: a in visited
    {
      var es := Elements(heap.tree);
      TreeElements();
      NodesInTree();
      hide Zip, RedBlack, Sorted, Elements, Nodes, Shape;
      forall a | a in signum && signum[a] == s ensures a in visited {
        var e := Element(handles[a], KeyOf(signum[a], loopOf[a], a));
        assert e in heap.Contents();
        var k :| 0 <= k < |es| && es[k] == e;
        assert start <= k < end;
      }
    }

    // ---- the handler ----

    lemma LoopsAreReal()
      requires Accounted(loopOf, caught, dispatched, reading, pipe, uncounted)
      ensures forall a | a in loopOf :: 0 < loopOf[a]
      ensures caught.Keys == loopOf.Keys
    {
    }

    /** uv__signal_handler up to the first watcher of the signal. */
    method Enter(s: int)
      requires Valid() && !locked && !aborted && s != 0
      modifies `locked, `signal, `cursor, `from, `at, `visited
      ensures Valid() && locked && signal == s && visited == {} && uncounted == None
    {
      hide Elements, Process.TreeValid, Process.Books, InWalk;
      SameKeys();
      ghost var start;
      cursor, start := FirstHandle(s);
      AtFirst(Elements(heap.tree), s, start, cursor);
      locked, signal, from, at, visited := true, s, start, start, {};
    }

    /** What the handler reads from the watcher it has come to. */
    method Visit() returns (a: int)
      requires TreeValid() && Walking() && locked && cursor != null
      ensures a in signum && signum[a] == signal && a in loopOf && a !in visited && signal != 0
      ensures at < |Elements(heap.tree)| && a == Elements(heap.tree)[at].key.address
    {
      hide Elements, Nodes;
      TreeElements();
      OneMoreAddress(Elements(heap.tree), from, at);
      a := cursor.key.address;
    }

    /** The write to the pipe of the watcher's loop, which may be full; the writes to `fails` do not
        succeed for another reason. */
    method Send(fails: set<int>) returns (ghost a: int)
      requires Valid() && !aborted && locked && uncounted == None && cursor != null
      modifies `pipe, `uncounted, `aborted, `cursor, `at, `visited
      ensures Valid() && a in signum && signum[a] == signal && a !in old(visited)
      ensures a in loopOf && loopOf[a] in old(pipe)
      ensures aborted <==> a !in fails && |old(pipe)[loopOf[a]]| == capacity
      ensures a in fails || aborted ==> pipe == old(pipe) && uncounted == None
      ensures visited == if a in fails then old(visited) + {a} else old(visited)
      ensures at == if a in fails then old(at) + 1 else old(at)
      ensures a !in fails ==> cursor == old(cursor)
      ensures a !in fails && !aborted ==>
        uncounted == Some(a) && pipe == old(pipe)[loopOf[a] := old(pipe)[loopOf[a]] + [Message(a, signal)]]
    {
      hide Elements, Closes, Accounted, Process.TreeValid, InWalk;
      var target := Visit();
      a := target;
      Sends(loopOf, caught, dispatched, reading, pipe, target, signal);
      if target in fails {
        GoOn(target);
        return;
      }
      var l := loopOf[target];
      if |pipe[l]| >= capacity {
        aborted := true;
        return;
      }
      pipe := pipe[l := pipe[l] + [Message(target, signal)]];
      uncounted := Some(target);
      NowUncounted(Elements(heap.tree), signal, from, at, cursor, visited);
    }

    /** caught_signals++ */
    method CountCaught() returns (ghost a: int)
      requires Valid() && uncounted.Some?
      modifies `caught, `uncounted, `cursor, `at, `visited
      ensures Valid() && uncounted == None && old(uncounted) == Some(a) && a in old(caught)
      ensures caught == old(caught)[a := old(caught)[a] + 1]
      ensures a in signum && signum[a] == signal && a !in old(visited)
      ensures visited == old(visited) + {a} && at == old(at) + 1
    {
      hide Elements, Process.TreeValid, Process.Books, InWalk;
      NoneUncounted(Elements(heap.tree), signal, from, at, cursor, visited, uncounted.value);
      var target := Visit();
      a := target;
      Tally(target);
      GoOn(target);
    }

    method Tally(a: int)
      requires Valid() && uncounted == Some(a) && a in signum && signum[a] == signal && signal != 0
      requires InWalk(Elements(heap.tree), signal, from, at, cursor, visited, None)
      modifies `caught, `uncounted
      ensures Valid() && uncounted == None && a in old(caught)
      ensures caught == old(caught)[a := old(caught)[a] + 1]
    {
      hide Elements, Closes, Accounted, Process.TreeValid, InWalk, InCallbacks, Watched;
      Counted(loopOf, caught, dispatched, reading, pipe, a);
      CaughtWatching(signum, caught, caught[a := caught[a] + 1], dispatched, closing, closePending, signal);
      caught := caught[a := caught[a] + 1];
      uncounted := None;
    }

    /** RB_NEXT, and the test of the loop. */
    method GoOn(a: int)
      requires Valid() && locked && uncounted == None && cursor != null
      requires at < |Elements(heap.tree)| && a == Elements(heap.tree)[at].key.address
      modifies `cursor, `at, `visited
      ensures Valid() && at == old(at) + 1 && visited == old(visited) + {a}
    {
      hide Elements, Nodes, Closes, Accounted, Process.TreeValid, Head.Valid, Zip, Sorted, RedBlack;
      TreeIsValid();
      ghost var es := Elements(heap.tree);
      TreeElements();
      OneMoreAddress(es, from, at);
      var node := heap.Next(cursor, at);
      if node != null && node.key.major != signal { node := null; }
      visited := visited + {a};
      cursor := node;
      at := at + 1;
    }

    /** The end of uv__signal_handler: every watcher of the signal has had its turn, and no other. */
    method Leave()
      requires Valid() && !aborted && locked && cursor == null
      modifies `locked
      ensures Valid() && !locked
      ensures forall a | a in signum :: a in visited <==> signum[a] == signal
    {
      hide Elements, Closes, Accounted, Process.TreeValid;
      TreeElements();
      AllVisited(signal, visited, from, at);
      locked := false;
    }

    /** One turn of the loop, if nothing interrupts it. */
    method Serve(fails: set<int>) returns (ghost a: int)
      requires Valid() && !aborted && locked && uncounted == None && cursor != null
      modifies `caught, `pipe, `uncounted, `aborted, `cursor, `at, `visited
      ensures Valid() && a in signum && signum[a] == signal && a !in old(visited) && uncounted == None
      ensures a in loopOf && loopOf[a] in old(pipe) && a in old(caught)
      ensures aborted <==> a !in fails && |old(pipe)[loopOf[a]]| == capacity
      ensures if a in fails || aborted then pipe == old(pipe) && caught == old(caught) else
        && pipe == old(pipe)[loopOf[a] := old(pipe)[loopOf[a]] + [Message(a, signal)]]
        && caught == old(caught)[a := old(caught)[a] + 1]
      ensures if aborted then visited == old(visited) else visited == old(visited) + {a} && at == old(at) + 1
    {
      hide Elements, Process.TreeValid, Process.Books, Process.Walking;
      SameKeys();
      a := Send(fails);
      if uncounted.Some? {
        ghost var b := CountCaught();
      }
    }

    lemma PipesFit()
      requires Valid()
      ensures forall l | l in pipe :: |pipe[l]| <= capacity
    {
      hide Process.TreeValid, Process.Walking;
    }

    lemma AtInside()
      requires Valid() && locked
      ensures at <= |Elements(heap.tree)| && (cursor != null ==> at < |Elements(heap.tree)|)
    {
      hide Elements;
    }

    /** uv__signal_handler, if nothing interrupts it: a message goes to the loop of every watcher of the
        signal, but for writes that fail; if a loop has more watchers than its pipe has room, an
        assertion fails. */
    method Handler(s: int, fails: set<int>)
      requires Valid() && s != 0 && !locked && !aborted
      modifies `caught, `pipe, `uncounted, `aborted, `cursor, `from, `at, `visited, `locked, `signal
      ensures Valid() && locked == aborted
      ensures aborted <==> exists l :: l in old(pipe) && |old(pipe)[l]| + |Targets(signum, loopOf, s, l, fails)| > capacity
      ensures caught.Keys == old(caught).Keys == signum.Keys
      ensures !aborted ==>
        forall a | a in caught :: caught[a] == old(caught)[a] + if signum[a] == s && a !in fails then 1 else 0
    {
      hide Elements, Process.TreeValid, Process.Books, Process.Walking, Filled;
      SameKeys();
      Enter(s);
      ghost var before := pipe;
      assert Filled(before, pipe, visited, loopOf, fails) by { NothingFilled(before, loopOf, fails); }
      while cursor != null
        invariant Valid() && locked && signal == s && uncounted == None && !aborted
        invariant caught.Keys == old(caught).Keys && pipe.Keys == before.Keys
        invariant visited <= signum.Keys && forall a | a in visited :: signum[a] == s
        invariant forall a | a in caught :: caught[a] == old(caught)[a] + if a in visited && a !in fails then 1 else 0
        invariant Filled(before, pipe, visited, loopOf, fails)
        decreases |Elements(heap.tree)| - at
      {
        ghost var was, done := pipe, visited;
        AtInside();
        ghost var a := Serve(fails);
        if aborted {
          Overfull(before, pipe, visited, signum, loopOf, s, fails, a, capacity);
          return;
        }
        OneMoreFilled(before, was, pipe, done, loopOf, fails, a, s);
      }
      PipesFit();
      Leave();
      AllFit(before, pipe, visited, signum, loopOf, s, fails, capacity);
    }

    // ---- start, stop and close ----

    /** Is any watcher left that watches the signal? */
    method SomeWatch(s: int) returns (some: bool)
      requires TreeValid() && s != 0 && Accounted(loopOf, caught, dispatched, reading, pipe, uncounted)
      ensures some <==> Watched(signum, s)
    {
      hide Elements, Watched, Process.TreeValid;
      LoopsAreReal();
      var node, i := FirstHandle(s);
      FirstMeansWatched(s, node, i);
      some := node != null;
    }

    /** uv__signal_stop, with the lock held in between. */
    method StopWatching(a: int)
      requires Valid() && !locked && a in handles
      modifies `signum, `installed, heap, nodes
      ensures Valid() && signum == old(signum)[a := 0]
    {
      hide Elements, Accounted, Closes, Watched, Process.TreeValid, InCallbacks;
      TreeIsValid();
      if signum[a] == 0 { return; }
      var s := signum[a];
      TakeOut(a);
      var others := SomeWatch(s);
      NothingWatched(old(signum), signum, closing, caught, dispatched, closePending, a);
      if !others {
        installed := installed - {s};
      }
    }

    /** RB_REMOVE of the watcher. */
    method TakeOut(a: int)
      requires TreeValid() && a in handles && signum[a] != 0
      modifies `signum, heap, nodes
      ensures TreeValid() && signum == old(signum)[a := 0]
    {
      hide Zip, RedBlack, Sorted, Elements, Nodes, Shape;
      NodesInTree();
      assert allocated(Nodes(heap.tree));
      EntriesChange(handles, loopOf, signum, a, 0);
      var removed := heap.Remove(handles[a]);
      signum := signum[a := 0];
    }

    /** RB_INSERT of the watcher. */
    method PutIn(a: int, s: int)
      requires TreeValid() && a in handles && signum[a] == 0 && s != 0
      modifies `signum, heap, nodes
      ensures TreeValid() && signum == old(signum)[a := s]
    {
      hide Zip, RedBlack, Sorted, Elements, Nodes, Shape;
      NodesInTree();
      EntriesChange(handles, loopOf, signum, a, s);
      var node := handles[a];
      node.key := KeyOf(s, loopOf[a], a);
      signum := signum[a := s];
      assert allocated(Nodes(heap.tree));
      var r := heap.Insert(node);
      assert r == null;
      NodesWithin(signum);
    }

    /** The locked part of uv_signal_start: false if the handler cannot be installed. */
    method Register(a: int, s: int, possible: bool) returns (ok: bool)
      requires Valid() && !locked && a in handles && a !in closing && signum[a] == 0 && s != 0
      modifies `signum, `installed, heap, nodes
      ensures Valid() && (ok <==> possible || s in old(installed))
      ensures signum == if ok then old(signum)[a := s] else old(signum)
    {
      hide Elements, Accounted, Closes, Watched, Process.TreeValid;
      TreeIsValid();
      var others := SomeWatch(s);
      NowWatched(signum, closing, caught, dispatched, closePending, a, s);
      if !others {
        if !possible { return false; }
        installed := installed + {s};
      }
      PutIn(a, s);
      ok := true;
    }

    /** uv_signal_start; `arrivals` are the signals that are handled between its two locked parts. */
    method Start(a: int, s: int, possible: bool, arrivals: seq<int>) returns (ok: bool)
      requires Valid() && !locked && !aborted && a in handles && a !in closing
      modifies `signum, `installed, `caught, `pipe, heap, nodes
      modifies `uncounted, `aborted, `cursor, `from, `at, `visited, `locked, `signal
      ensures Valid() && locked == aborted && (ok ==> s != 0 && signum[a] == s)
      ensures s != 0 && possible && !aborted ==> ok
      ensures forall b | b in signum && b != a :: signum[b] == old(signum)[b]
      ensures !ok ==> signum[a] == if s == 0 then old(signum)[a] else 0
    {
      hide Accounted, Closes, Process.TreeValid, Process.Walking;
      SameKeys();
      if s == 0 { return false; }
      if s == signum[a] { return true; }
      if signum[a] != 0 {
        StopWatching(a);
        ghost var stopped := signum;
        var i := 0;
        while i < |arrivals|
          invariant 0 <= i <= |arrivals| && Valid() && signum == stopped && !locked && !aborted
        {
          if arrivals[i] != 0 && arrivals[i] in installed { Handler(arrivals[i], {}); }
          if aborted { return false; }
          i := i + 1;
        }
      }
      SameKeys();
      ok := Register(a, s, possible);
    }

    lemma SameKeys()
      requires Valid()
      ensures signum.Keys == handles.Keys == loopOf.Keys == caught.Keys == dispatched.Keys == closePending.Keys
      ensures forall a | a in closing :: a in signum && signum[a] == 0
      ensures forall a | a in loopOf :: 0 < loopOf[a]
    {
    }

    /** uv_close and uv__signal_close. */
    method Close(a: int)
      requires Valid() && !locked && a in handles && a !in closing
      modifies `signum, `installed, `closing, `closePending, heap, nodes
      ensures Valid() && closing == old(closing) + {a} && signum == old(signum)[a := 0]
      ensures a in caught && a in dispatched && a in old(closePending)
      ensures closePending == if caught[a] == dispatched[a] then old(closePending)[a := old(closePending)[a] + 1]
                              else old(closePending)
    {
      hide Accounted, Process.TreeValid, Watched;
      StopWatching(a);
      closing := closing + {a};
      if caught[a] == dispatched[a] {
        closePending := closePending[a := closePending[a] + 1];
      }
    }

    // ---- uv__signal_event ----

    /** read: up to 32 whole messages, once the last batch is dispatched. */
    method Read(l: int)
      requires Valid() && l in pipe && l in reading && reading[l] == []
      modifies `pipe, `reading
      ensures Valid() && l in pipe && l in reading
      ensures reading[l] + pipe[l] == old(pipe)[l] && (old(pipe)[l] != [] ==> reading[l] != []) && |reading[l]| <= 32
    {
      hide Closes, Process.TreeValid, Watched, Accounted, Count;
      ghost var was := reading;
      var n := if |pipe[l]| < 32 then |pipe[l]| else 32;
      var batch, rest := pipe[l][..n], pipe[l][n..];
      Cut(pipe[l], n);
      Batch(loopOf, caught, dispatched, reading, pipe, uncounted, l, batch, rest);
      reading := reading[l := batch];
      pipe := pipe[l := rest];
      assert forall k | k in busy :: k != l && reading[k] == was[k];
    }

    /** The callback of the watcher that a message names is called if it still watches that signal. */
    method Begin(l: int)
      requires Valid() && l in reading && reading[l] != [] && l !in busy
      modifies `busy, `calls
      ensures Valid() && busy == old(busy) + {l}
      ensures var m := reading[l][0];
        && m.handle in signum
        && calls == old(calls) + (if signum[m.handle] == m.signum then [m] else [])
        && (signum[m.handle] == m.signum ==> m.handle !in closing)
    {
      hide Closes, Process.TreeValid, Watched;
      SameKeys();
      var msg := reading[l][0];
      assert msg in reading[l];
      if msg.signum == signum[msg.handle] {
        assert msg.handle !in closing;
        calls := calls + [msg];
      }
      busy := busy + {l};
    }

    /** After the callback the message counts as dispatched; a close that waited for it is due. */
    method End(l: int)
      requires Valid() && l in busy
      modifies `busy, `reading, `dispatched, `closePending
      ensures Valid() && busy == old(busy) - {l}
      ensures l in old(reading) && old(reading)[l] != [] && reading == old(reading)[l := old(reading)[l][1..]]
      ensures forall a | a in closePending :: a in old(closePending) && old(closePending)[a] <= closePending[a]
    {
      hide Process.TreeValid, Process.Walking, Watched, Accounted, Closes;
      busy := busy - {l};
      Dispatch(l);
    }

    method Dispatch(l: int)
      requires Valid() && l in reading && reading[l] != [] && l !in busy
      modifies `reading, `dispatched, `closePending
      ensures Valid() && reading == old(reading)[l := old(reading)[l][1..]]
      ensures forall a | a in closePending :: a in old(closePending) && old(closePending)[a] <= closePending[a]
    {
      hide Process.TreeValid, Process.Walking, Watched, Accounted, Closes, InCallbacks;
      SameKeys();
      StillAtHand(busy, reading, l);
      var msg := reading[l][0];
      var a := msg.handle;
      Dispatched(loopOf, caught, dispatched, reading, pipe, uncounted, l);
      ClosesWhenDispatched(signum, caught, dispatched, closing, closePending, a);
      reading := reading[l := reading[l][1..]];
      dispatched := dispatched[a := dispatched[a] + 1];
      if a in closing && caught[a] == dispatched[a] {
        closePending := closePending[a := closePending[a] + 1];
      }
    }
  }

  // ---- the books, step by step ----

  lemma EntriesChange(handles: map<int, Node>, loopOf: map<int, int>, signum: map<int, int>, a: int, s: int)
    requires Injective(handles) && signum.Keys == handles.Keys == loopOf.Keys && a in signum
    ensures signum[a] != 0 && s == 0 ==>
      Entries(handles, loopOf, signum) - {Element(handles[a], KeyOf(signum[a], loopOf[a], a))}
        == Entries(handles, loopOf, signum[a := s])
    ensures signum[a] == 0 && s != 0 ==>
      Entries(handles, loopOf, signum) + {Element(handles[a], KeyOf(s, loopOf[a], a))}
        == Entries(handles, loopOf, signum[a := s])
  {
  }

  lemma NothingWatched(was: map<int, int>, signum: map<int, int>, closing: set<int>, caught: map<int, nat>,
                       dispatched: map<int, nat>, closePending: map<int, nat>, a: int)
    requires Closes(was, caught, dispatched, closing, closePending) && a in was && signum == was[a := 0]
    ensures Closes(signum, caught, dispatched, closing, closePending)
    ensures forall s | s != 0 :: Watched(was, s) <==> Watched(signum, s) || s == was[a]
  {
    forall s | s != 0 && Watched(was, s) && s != was[a] ensures Watched(signum, s) {
      var b :| b in was && was[b] == s;
      assert b in signum && signum[b] == s;
    }
    forall s | s != 0 && Watched(signum, s) ensures Watched(was, s) {
      var b :| b in signum && signum[b] == s;
      assert b in was && was[b] == s;
    }
  }

  lemma NowWatched(was: map<int, int>, closing: set<int>, caught: map<int, nat>,
                   dispatched: map<int, nat>, closePending: map<int, nat>, a: int, t: int)
    requires Closes(was, caught, dispatched, closing, closePending) && a in was && was[a] == 0 && t != 0 && a !in closing
    ensures Closes(was[a := t], caught, dispatched, closing, closePending)
    ensures forall s | s != 0 :: Watched(was[a := t], s) <==> Watched(was, s) || s == t
  {
    var signum := was[a := t];
    assert a in signum && signum[a] == t;
    forall s | s != 0 && Watched(was, s) ensures Watched(signum, s) {
      var b :| b in was && was[b] == s;
      assert b in signum && signum[b] == s;
    }
  }

  lemma Cut(s: seq<Message>, n: nat)
    requires n <= |s|
    ensures s[..n] + s[n..] == s
  {
  }

  lemma Batch(loopOf: map<int, int>, caught: map<int, nat>, dispatched: map<int, nat>,
              reading: map<int, seq<Message>>, pipe: map<int, seq<Message>>, uncounted: Option<int>, l: int,
              batch: seq<Message>, rest: seq<Message>)
    requires Accounted(loopOf, caught, dispatched, reading, pipe, uncounted) && l in pipe && reading[l] == []
    requires batch + rest == pipe[l]
    ensures Accounted(loopOf, caught, dispatched, reading[l := batch], pipe[l := rest], uncounted)
  {
    forall a ensures Count(pipe[l], a) == Count(batch, a) + Count(rest, a) { CountSplit(batch, rest, a); }
    forall m | m in batch || m in rest ensures m in pipe[l] { assert m in batch + rest; }
  }

  lemma StillAtHand(busy: set<int>, reading: map<int, seq<Message>>, l: int)
    requires InCallbacks(busy, reading) && l !in busy && l in reading && reading[l] != []
    ensures InCallbacks(busy, reading[l := reading[l][1..]])
  {
  }

  lemma ClosesWhenDispatched(signum: map<int, int>, caught: map<int, nat>, dispatched: map<int, nat>,
                             closing: set<int>, closePending: map<int, nat>, a: int)
    requires Closes(signum, caught, dispatched, closing, closePending)
    requires a in dispatched && a in caught && a in closePending && (a in closing ==> dispatched[a] < caught[a])
    ensures var d := dispatched[a := dispatched[a] + 1];
      Closes(signum, caught, d, closing,
             if a in closing && caught[a] == d[a] then closePending[a := closePending[a] + 1] else closePending)
  {
  }

  lemma Dispatched(loopOf: map<int, int>, caught: map<int, nat>, dispatched: map<int, nat>,
                   reading: map<int, seq<Message>>, pipe: map<int, seq<Message>>, uncounted: Option<int>, l: int)
    requires Accounted(loopOf, caught, dispatched, reading, pipe, uncounted) && l in reading && reading[l] != []
    ensures var a := reading[l][0].handle;
      && a in loopOf && a in dispatched && a in caught && (uncounted != Some(a) ==> dispatched[a] < caught[a])
      && Accounted(loopOf, caught, dispatched[a := dispatched[a] + 1], reading[l := reading[l][1..]], pipe, uncounted)
  {
    assert reading[l][0] in reading[l];
    var r := reading[l := reading[l][1..]];
    forall k, m | k in pipe && m in r[k] ensures m in reading[k] {}
  }

  ghost function Addresses(es: seq<Element>, start: nat, end: nat): set<int>
    requires start <= end <= |es|
  {
    set k | start <= k < end :: es[k].key.address
  }

  lemma NoAddresses(es: seq<Element>, start: nat)
    requires start <= |es|
    ensures Addresses(es, start, start) == {}
  {
  }

  lemma OneMoreAddress(es: seq<Element>, start: nat, i: nat)
    requires start <= i < |es|
    requires forall j, k | 0 <= j < k < |es| :: es[j].key.address != es[k].key.address
    ensures es[i].key.address !in Addresses(es, start, i)
    ensures Addresses(es, start, i + 1) == Addresses(es, start, i) + {es[i].key.address}
  {
  }

  /** A message is written and not counted yet. */
  lemma Sends(loopOf: map<int, int>, caught: map<int, nat>, dispatched: map<int, nat>,
              reading: map<int, seq<Message>>, pipe: map<int, seq<Message>>, a: int, s: int)
    requires Accounted(loopOf, caught, dispatched, reading, pipe, None) && a in loopOf && s != 0
    ensures loopOf[a] in pipe && a in caught
    ensures Accounted(loopOf, caught, dispatched, reading,
                      pipe[loopOf[a] := pipe[loopOf[a]] + [Message(a, s)]], Some(a))
  {
    var l := loopOf[a];
    var p := pipe[l := pipe[l] + [Message(a, s)]];
    forall b | b in loopOf ensures Count(p[loopOf[b]], b) == Count(pipe[loopOf[b]], b) + if b == a then 1 else 0 {
      if loopOf[b] == l { CountSplit(pipe[l], [Message(a, s)], b); }
    }
  }

  /** It is counted now. */
  lemma Counted(loopOf: map<int, int>, caught: map<int, nat>, dispatched: map<int, nat>,
                reading: map<int, seq<Message>>, pipe: map<int, seq<Message>>, a: int)
    requires Accounted(loopOf, caught, dispatched, reading, pipe, Some(a))
    ensures a in caught && Accounted(loopOf, caught[a := caught[a] + 1], dispatched, reading, pipe, None)
  {
  }

  // ---- the walk of the handler ----

  lemma AllBelow(es: seq<Element>, s: int)
    requires Below(es, Key(s, 0, 0)) && forall k | 0 <= k < |es| :: 0 < es[k].key.minor
    ensures forall k | 0 <= k < |es| :: es[k].key.major < s
  {
    assert forall k | 0 <= k < |es| :: es[k] in es;
  }

  lemma FirstOfSignal(es: seq<Element>, s: int, i: int)
    requires FirstAtLeast(es, Key(s, 0, 0), i) && forall k | 0 <= k < |es| :: 0 < es[k].key.minor
    requires forall j, k | 0 <= j < k < |es| :: es[j].key.major <= es[k].key.major
    ensures 0 <= i < |es|
    ensures forall k | 0 <= k < i :: es[k].key.major < s
    ensures forall k | i <= k < |es| :: s <= es[k].key.major
  {
    forall k | 0 <= k < i ensures es[k].key.major < s {
      assert es[..i][k] == es[k] && es[k] in es[..i];
    }
  }

  /** The watchers of `signal` start at `from`; those before `at` had their turn, the next is at `cursor`. */
  ghost predicate InWalk(es: seq<Element>, signal: int, from: nat, at: nat, cursor: Node?, visited: set<int>,
                         uncounted: Option<int>) {
    && signal != 0 && from <= at <= |es|
    && cursor == (if at < |es| && es[at].key.major == signal then es[at].node else null)
    && (forall k | 0 <= k < from :: es[k].key.major < signal)
    && (forall k | from <= k < |es| :: signal <= es[k].key.major)
    && (forall k | from <= k < at :: es[k].key.major == signal)
    && visited == Addresses(es, from, at)
    && (uncounted.Some? ==> cursor != null && uncounted == Some(es[at].key.address))
  }

  lemma AtFirst(es: seq<Element>, s: int, start: nat, node: Node?)
    requires s != 0 && start <= |es|
    requires node == if start < |es| && es[start].key.major == s then es[start].node else null
    requires forall k | 0 <= k < start :: es[k].key.major < s
    requires forall k | start <= k < |es| :: s <= es[k].key.major
    ensures InWalk(es, s, start, start, node, {}, None)
  {
  }

  lemma NowUncounted(es: seq<Element>, signal: int, from: nat, at: nat, cursor: Node?, visited: set<int>)
    requires InWalk(es, signal, from, at, cursor, visited, None) && cursor != null
    ensures at < |es| && InWalk(es, signal, from, at, cursor, visited, Some(es[at].key.address))
  {
  }

  lemma NoneUncounted(es: seq<Element>, signal: int, from: nat, at: nat, cursor: Node?, visited: set<int>, a: int)
    requires InWalk(es, signal, from, at, cursor, visited, Some(a))
    ensures at < |es| && a == es[at].key.address && cursor != null
    ensures InWalk(es, signal, from, at, cursor, visited, None)
  {
  }

  // ---- room in the pipes ----

  /** The watchers of signal `s` that loop `l` gets a message for. */
  function Targets(signum: map<int, int>, loopOf: map<int, int>, s: int, l: int, fails: set<int>): set<int> {
    set a | a in signum && signum[a] == s && a in loopOf && loopOf[a] == l && a !in fails
  }

  ghost predicate Filled(before: map<int, seq<Message>>, pipe: map<int, seq<Message>>, visited: set<int>,
                         loopOf: map<int, int>, fails: set<int>) {
    && pipe.Keys == before.Keys
    && forall l | l in pipe :: |pipe[l]| == |before[l]| + |Sent(visited, loopOf, l, fails)|
  }

  function Sent(visited: set<int>, loopOf: map<int, int>, l: int, fails: set<int>): set<int> {
    set a | a in visited && a in loopOf && loopOf[a] == l && a !in fails
  }

  lemma NothingFilled(pipe: map<int, seq<Message>>, loopOf: map<int, int>, fails: set<int>)
    ensures Filled(pipe, pipe, {}, loopOf, fails)
  {
    assert forall l :: Sent({}, loopOf, l, fails) == {};
  }

  lemma OneMoreFilled(before: map<int, seq<Message>>, was: map<int, seq<Message>>, pipe: map<int, seq<Message>>,
                      done: set<int>, loopOf: map<int, int>, fails: set<int>, a: int, s: int)
    requires Filled(before, was, done, loopOf, fails) && a in loopOf && loopOf[a] in was && a !in done
    requires pipe == if a in fails then was else was[loopOf[a] := was[loopOf[a]] + [Message(a, s)]]
    ensures Filled(before, pipe, done + {a}, loopOf, fails) && pipe.Keys == before.Keys
  {
    forall l | l in pipe ensures |pipe[l]| == |before[l]| + |Sent(done + {a}, loopOf, l, fails)| {
      if loopOf[a] == l && a !in fails {
        assert Sent(done + {a}, loopOf, l, fails) == Sent(done, loopOf, l, fails) + {a};
      } else {
        assert Sent(done + {a}, loopOf, l, fails) == Sent(done, loopOf, l, fails);
      }
    }
  }

  /** A pipe is full although one watcher has not had its message yet. */
  lemma Overfull(before: map<int, seq<Message>>, pipe: map<int, seq<Message>>, visited: set<int>, signum: map<int, int>,
                 loopOf: map<int, int>, s: int, fails: set<int>, a: int, capacity: nat)
    requires Filled(before, pipe, visited, loopOf, fails) && forall b | b in visited :: b in signum && signum[b] == s
    requires a in signum && signum[a] == s && a !in visited && a !in fails && a in loopOf && loopOf[a] in pipe
    requires |pipe[loopOf[a]]| == capacity
    ensures exists l :: l in before && |before[l]| + |Targets(signum, loopOf, s, l, fails)| > capacity
  {
    var l := loopOf[a];
    assert forall b | b in Sent(visited, loopOf, l, fails) + {a} :: b in Targets(signum, loopOf, s, l, fails);
    SubsetSize(Sent(visited, loopOf, l, fails) + {a}, Targets(signum, loopOf, s, l, fails));
    assert l in before;
  }

  /** All watchers have had their messages, and no pipe holds more than it can. */
  lemma AllFit(before: map<int, seq<Message>>, pipe: map<int, seq<Message>>, visited: set<int>, signum: map<int, int>,
               loopOf: map<int, int>, s: int, fails: set<int>, capacity: nat)
    requires Filled(before, pipe, visited, loopOf, fails)
    requires visited <= signum.Keys && forall b | b in signum :: b in visited <==> signum[b] == s
    requires forall l | l in pipe :: |pipe[l]| <= capacity
    ensures forall l | l in before :: |before[l]| + |Targets(signum, loopOf, s, l, fails)| <= capacity
  {
    forall l | l in before ensures |before[l]| + |Targets(signum, loopOf, s, l, fails)| <= capacity {
      var t, u := Targets(signum, loopOf, s, l, fails), Sent(visited, loopOf, l, fails);
      assert forall a :: a in t <==> a in u;
      assert t == u;
    }
  }

  lemma {:induction false} SubsetSize(s: set<int>, t: set<int>)
    requires s <= t
    ensures |s| <= |t|
  {
    assert t == s + (t - s);
  }

  lemma CaughtWatching(signum: map<int, int>, was: map<int, nat>, caught: map<int, nat>, dispatched: map<int, nat>,
                       closing: set<int>, closePending: map<int, nat>, s: int)
    requires Closes(signum, was, dispatched, closing, closePending) && s != 0 && caught.Keys == was.Keys
    requires forall a | a in caught :: signum[a] != s ==> caught[a] == was[a]
    ensures Closes(signum, caught, dispatched, closing, closePending)
  {
  }

  // ---- whole runs ----

  /** `SendNext`, `CountNext` and `LeaveNext` are the steps of the handler that holds the lock. A call
      of uv_signal_start is `StopCall`, if the watcher watches another signal, and `RegisterCall`. */
  datatype Event =
    | Signal(s: int)
    | SendNext(fails: set<int>)
    | CountNext
    | LeaveNext
    | RegisterCall(a: int, s: int, possible: bool)
    | StopCall(a: int)
    | CloseCall(a: int)
    | ReadPipe(l: int)
    | BeginMessage(l: int)
    | EndMessage(l: int)

  /** Signals at any time, calls from any thread and in any callback whenever the lock is free, loops
      that read and dispatch in between any two steps of the handler: the books stay right, and a close
      never becomes pending twice. */
  method Run(p: Process, events: seq<Event>)
    requires p.Valid()
    modifies p, p.heap, p.nodes
    ensures p.Valid()
    ensures forall a | a in p.closePending :: a in old(p.closePending) && old(p.closePending)[a] <= p.closePending[a] <= 1
  {
    hide Process.TreeValid, Process.Walking, Accounted, Watched, Closes;
    p.SameKeys();
    var i := 0;
    while i < |events|
      invariant 0 <= i <= |events| && p.Valid()
      invariant p.closePending.Keys == old(p.closePending).Keys
      invariant forall a | a in p.closePending :: old(p.closePending)[a] <= p.closePending[a]
    {
      if !p.aborted { Step(p, events[i]); }
      i := i + 1;
    }
    PendingOnce(p.signum, p.caught, p.dispatched, p.closing, p.closePending);
  }

  method Step(p: Process, e: Event)
    requires p.Valid() && !p.aborted
    modifies p, p.heap, p.nodes
    ensures p.Valid() && p.closePending.Keys == old(p.closePending).Keys
    ensures forall a | a in p.closePending :: old(p.closePending)[a] <= p.closePending[a]
  {
    hide Process.TreeValid, Process.Books, Process.Walking;
    match e {
      case ReadPipe(l) => if l in p.pipe && l in p.reading && p.reading[l] == [] { p.Read(l); }
      case BeginMessage(l) => if l in p.reading && p.reading[l] != [] && l !in p.busy { p.Begin(l); }
      case EndMessage(l) => EndStep(p, l);
      case _ => if p.locked { HandlerStep(p, e); } else { UserStep(p, e); }
    }
  }

  method HandlerStep(p: Process, e: Event)
    requires p.Valid() && p.locked && !p.aborted
    modifies p`caught, p`pipe, p`uncounted, p`aborted, p`cursor, p`at, p`visited, p`locked
    ensures p.Valid()
  {
    hide Process.TreeValid, Process.Books, Process.Walking;
    match e {
      case SendNext(fails) => if p.uncounted == None && p.cursor != null { ghost var a := p.Send(fails); }
      case CountNext => if p.uncounted.Some? { ghost var a := p.CountCaught(); }
      case LeaveNext => if p.cursor == null { p.Leave(); }
      case _ =>
    }
  }

  method EndStep(p: Process, l: int)
    requires p.Valid()
    modifies p`busy, p`reading, p`dispatched, p`closePending
    ensures p.Valid() && p.closePending.Keys == old(p.closePending).Keys
    ensures forall a | a in p.closePending :: old(p.closePending)[a] <= p.closePending[a]
  {
    hide Process.TreeValid, Process.Books, Process.Walking;
    p.SameKeys();
    if l in p.busy { p.End(l); }
    p.SameKeys();
  }

  method UserStep(p: Process, e: Event)
    requires p.Valid() && !p.locked && !p.aborted
    modifies p, p.heap, p.nodes
    ensures p.Valid() && p.closePending.Keys == old(p.closePending).Keys
    ensures forall a | a in p.closePending :: old(p.closePending)[a] <= p.closePending[a]
  {
    hide Process.TreeValid, Process.Books, Process.Walking;
    p.SameKeys();
    match e {
      case Signal(s) => if s != 0 { p.Enter(s); }
      case RegisterCall(a, s, possible) =>
        if a in p.handles && a !in p.closing && p.signum[a] == 0 && s != 0 { var ok := p.Register(a, s, possible); }
      case StopCall(a) => if a in p.handles && a !in p.closing { p.StopWatching(a); }
      case CloseCall(a) => if a in p.handles && a !in p.closing { p.Close(a); }
      case _ =>
    }
  }

  lemma PendingOnce(signum: map<int, int>, caught: map<int, nat>, dispatched: map<int, nat>,
                    closing: set<int>, closePending: map<int, nat>)
    requires Closes(signum, caught, dispatched, closing, closePending)
    ensures forall a | a in closePending :: closePending[a] <= 1
  {
  }

  lemma {:induction false} CountNone(ms: seq<Message>, a: int)
    requires Count(ms, a) == 0
    ensures forall i | 0 <= i < |ms| :: ms[i].handle != a
  {
    if ms != [] { CountNone(ms[1..], a); }
  }

  /** A watcher whose close is pending, and whose memory may go, is named by no message anywhere; a
      closing watcher that is named by none is pending. */
  lemma PendingIsUnnamed(p: Process, a: int)
    requires p.Valid() && a in p.closing
    ensures a in p.closePending && p.reading.Keys == p.pipe.Keys
    ensures p.closePending[a] == 1 <==>
      forall l | l in p.pipe :: (forall m | m in p.reading[l] + p.pipe[l] :: m.handle != a)
  {
    hide Process.TreeValid, Process.Walking;
    p.SameKeys();
    Unnamed(p.loopOf, p.signum, p.caught, p.dispatched, p.reading, p.pipe, p.uncounted, p.closing, p.closePending, a);
  }

  lemma Unnamed(loopOf: map<int, int>, signum: map<int, int>, caught: map<int, nat>, dispatched: map<int, nat>,
                reading: map<int, seq<Message>>, pipe: map<int, seq<Message>>, uncounted: Option<int>,
                closing: set<int>, closePending: map<int, nat>, a: int)
    requires Accounted(loopOf, caught, dispatched, reading, pipe, uncounted) && uncounted != Some(a)
    requires Closes(signum, caught, dispatched, closing, closePending) && a in closing
    ensures a in closePending
    ensures closePending[a] == 1 <==>
      forall l | l in pipe :: (forall m | m in reading[l] + pipe[l] :: m.handle != a)
  {
    var l := loopOf[a];
    if closePending[a] == 1 {
      CountNone(reading[l], a);
      CountNone(pipe[l], a);
      forall k, m | k in pipe && m in reading[k] + pipe[k] ensures m.handle != a {
        assert m in reading[k] || m in pipe[k];
        assert loopOf[m.handle] == k;
      }
    }
    if forall l | l in pipe :: (forall m | m in reading[l] + pipe[l] :: m.handle != a) {
      forall m | m in reading[l] || m in pipe[l] ensures m.handle != a { assert m in reading[l] + pipe[l]; }
      NoneCount(reading[l], a);
      NoneCount(pipe[l], a);
    }
  }

  /** Whenever the lock is free, what was caught and not dispatched is what is in the pipe and the
      buffer; during a handler it is one less for the one watcher whose message was just written. */
  lemma Conservation(p: Process, a: int)
    requires p.Valid() && a in p.signum
    ensures a in p.loopOf && a in p.caught && a in p.dispatched && p.loopOf[a] in p.pipe && p.loopOf[a] in p.reading
    ensures var named := Count(p.reading[p.loopOf[a]], a) + Count(p.pipe[p.loopOf[a]], a);
      p.caught[a] + (if p.locked && p.uncounted == Some(a) then 1 else 0) == p.dispatched[a] + named
  {
    hide Process.TreeValid;
    p.SameKeys();
  }

  lemma {:induction false} NoneCount(ms: seq<Message>, a: int)
    requires forall m | m in ms :: m.handle != a
    ensures Count(ms, a) == 0
  {
    if ms != [] { NoneCount(ms[1..], a); }
  }
}
