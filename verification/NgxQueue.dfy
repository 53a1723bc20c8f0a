/** The circular doubly linked lists of libuv/include/uv-private/ngx-queue.h, which hold the queues of
    the channels, the thread pool and the streams: every macro does to the list what the sequences of
    the other modules do. */
module NgxQueue {
  import opened Options

  class Link {
    var prev: Link?
    var next: Link?
  }

  function Follows(all: seq<Link>, i: nat): Link
    requires i < |all|
  {
    if i + 1 < |all| then all[i + 1] else all[0]
  }

  function Leads(all: seq<Link>, i: nat): Link
    requires i < |all|
  {
    if i == 0 then all[|all| - 1] else all[i - 1]
  }

  /** The links form one ring in this order. */
  ghost predicate Closed(all: seq<Link>)
    reads all
  {
    && Distinct(all)
    && (forall i {:trigger all[i].next} | 0 <= i < |all| :: all[i].next == Follows(all, i))
    && (forall i {:trigger all[i].prev} | 0 <= i < |all| :: all[i].prev == Leads(all, i))
  }

  /** Every link of `part` is one of `all`, at a place of its own. */
  lemma DistinctPart(all: seq<Link>, part: seq<Link>, places: seq<nat>)
    requires Distinct(all) && |places| == |part|
    requires forall k | 0 <= k < |part| :: places[k] < |all| && part[k] == all[places[k]]
    requires forall j, k | 0 <= j < k < |part| :: places[j] < places[k]
    ensures Distinct(part)
  {
  }

  lemma DistinctMore(all: seq<Link>, x: Link)
    requires Distinct(all) && x !in all
    ensures Distinct(all + [x]) && Distinct([x] + all)
  {
    forall k | 0 <= k < |all| ensures all[k] != x { assert all[k] in all; }
  }

  lemma DistinctSwap(x: Link, h: Link, s: seq<Link>)
    requires Distinct([x] + ([h] + s))
    ensures Distinct([h] + ([x] + s))
  {
    var u, v := [x] + ([h] + s), [h] + ([x] + s);
    forall i, j | 0 <= i < j < |v| ensures v[i] != v[j] {
      var i' := if i == 0 then 1 else if i == 1 then 0 else i;
      var j' := if j == 1 then 0 else j;
      assert v[i] == u[i'] && v[j] == u[j'];
      if i' < j' { assert u[i'] != u[j']; } else { assert u[j'] != u[i']; }
    }
  }

  lemma DistinctWithout(h: Link, s: seq<Link>, i: nat)
    requires Distinct([h] + s) && i < |s|
    ensures Distinct([h] + (s[..i] + s[i + 1..]))
  {
    DistinctPart([h] + s, [h] + (s[..i] + s[i + 1..]), seq(|s|, k => if k <= i then k else k + 1));
  }

  lemma DistinctSplit(h: Link, s: seq<Link>, i: nat, n: Link)
    requires Distinct([h] + s) && i <= |s| && n !in s
    ensures Distinct([h] + s[..i]) && Distinct([n] + s[i..])
  {
    DistinctPart([h] + s, [h] + s[..i], seq(i + 1, k => k));
    DistinctPart([h] + s, s[i..], seq(|s| - i, k requires 0 <= k => i + 1 + k));
    DistinctMore(s[i..], n);
  }

  lemma DistinctJoin(h: Link, n: Link, s: seq<Link>, t: seq<Link>)
    requires Distinct([h] + s + ([n] + t))
    ensures Distinct([h] + (s + t)) && n !in [h] + (s + t)
  {
    var u, v := [h] + s + ([n] + t), [h] + (s + t);
    DistinctPart(u, v, seq(|v|, k => if k <= |s| then k else k + 1));
    assert u[|s| + 1] == n;
    forall k | 0 <= k < |v| ensures v[k] != n {
      assert v[k] == u[if k <= |s| then k else k + 1];
    }
  }

  /** The queue with head `h` contains `s`. */
  ghost predicate Holds(h: Link, s: seq<Link>)
    reads h, s
  {
    Closed([h] + s)
  }

  /** ngx_queue_init. */
  method Init(q: Link)
    modifies q
    ensures Holds(q, [])
  {
    q.prev := q;
    q.next := q;
  }

  /** ngx_queue_empty. */
  method Empty(h: Link, ghost s: seq<Link>) returns (empty: bool)
    requires Holds(h, s)
    ensures empty <==> s == []
  {
    ghost var all := [h] + s;
    assert all[0].prev == Leads(all, 0);
    empty := h == h.prev;
  }

  /** ngx_queue_insert_head. */
  method InsertHead(h: Link, x: Link, ghost s: seq<Link>)
    requires Holds(h, s) && x != h && x !in s
    modifies h, x, s
    ensures Holds(h, [x] + s)
  {
    ghost var all := [h] + s;
    assert all[0].next == Follows(all, 0);
    x.next := h.next;
    x.next.prev := x;
    x.prev := h;
    h.next := x;
    ghost var new' := [h] + ([x] + s);
    DistinctMore(all, x);
    DistinctSwap(x, h, s);
    forall k | 0 <= k < |new'| ensures new'[k].next == Follows(new', k) && new'[k].prev == Leads(new', k) {
      if k == 0 {
        assert new'[k] == all[0] && old(all[0].prev) == Leads(all, 0);
      } else if 1 < k {
        assert new'[k] == all[k - 1] && old(all[k - 1].next) == Follows(all, k - 1) && old(all[k - 1].prev) == Leads(all, k - 1);
      }
    }
  }

  /** ngx_queue_insert_tail. */
  method InsertTail(h: Link, x: Link, ghost s: seq<Link>)
    requires Holds(h, s) && x != h && x !in s
    modifies h, x, s
    ensures Holds(h, s + [x])
  {
    ghost var all := [h] + s;
    assert all[0].prev == Leads(all, 0);
    x.prev := h.prev;
    x.prev.next := x;
    x.next := h;
    h.prev := x;
    ghost var new' := [h] + (s + [x]);
    DistinctMore(all, x);
    assert new' == all + [x];
    forall k | 0 <= k < |new'| ensures new'[k].next == Follows(new', k) && new'[k].prev == Leads(new', k) {
      if k < |all| {
        assert new'[k] == all[k] && old(all[k].next) == Follows(all, k) && old(all[k].prev) == Leads(all, k);
      }
    }
  }

  /** ngx_queue_remove of the `i`-th link. */
  method Remove(x: Link, ghost h: Link, ghost s: seq<Link>, ghost i: nat)
    requires Holds(h, s) && i < |s| && s[i] == x
    modifies h, s
    ensures Holds(h, s[..i] + s[i + 1..])
  {
    ghost var all := [h] + s;
    assert all[i + 1] == x && all[i + 1].next == Follows(all, i + 1) && all[i + 1].prev == Leads(all, i + 1);
    x.next.prev := x.prev;
    x.prev.next := x.next;
    ghost var new' := [h] + (s[..i] + s[i + 1..]);
    DistinctWithout(h, s, i);
    forall k | 0 <= k < |new'| ensures new'[k].next == Follows(new', k) && new'[k].prev == Leads(new', k) {
      var j := if k <= i then k else k + 1;
      assert new'[k] == all[j] && old(all[j].next) == Follows(all, j) && old(all[j].prev) == Leads(all, j);
    }
  }

  /** ngx_queue_split: `n` gets everything from `q` on. */
  method Split(h: Link, q: Link, n: Link, ghost s: seq<Link>, ghost i: nat)
    requires Holds(h, s) && i < |s| && s[i] == q && n != h && n !in s
    modifies h, n, s
    ensures Holds(h, s[..i]) && Holds(n, s[i..])
  {
    ghost var all := [h] + s;
    assert all[0].prev == Leads(all, 0) && all[i + 1] == q && all[i + 1].prev == Leads(all, i + 1);
    n.prev := h.prev;
    n.prev.next := n;
    n.next := q;
    h.prev := q.prev;
    h.prev.next := h;
    q.prev := n;
    ghost var front, back := [h] + s[..i], [n] + s[i..];
    DistinctSplit(h, s, i, n);
    forall k | 0 <= k < |front| ensures front[k].next == Follows(front, k) && front[k].prev == Leads(front, k) {
      assert front[k] == all[k] && old(all[k].next) == Follows(all, k) && old(all[k].prev) == Leads(all, k);
    }
    forall k | 0 <= k < |back| ensures back[k].next == Follows(back, k) && back[k].prev == Leads(back, k) {
      if 0 < k {
        var j := i + k;
        assert back[k] == all[j] && old(all[j].next) == Follows(all, j) && old(all[j].prev) == Leads(all, j);
      }
    }
  }

  /** ngx_queue_add: what `n` contains goes to the end of `h`. */
  method Add(h: Link, n: Link, ghost s: seq<Link>, ghost t: seq<Link>)
    requires Holds(h, s) && Holds(n, t) && Distinct([h] + s + ([n] + t))
    modifies h, n, s, t
    ensures Holds(h, s + t)
  {
    ghost var a, b := [h] + s, [n] + t;
    assert a[0].prev == Leads(a, 0) && b[0].next == Follows(b, 0) && b[0].prev == Leads(b, 0);
    h.prev.next := n.next;
    n.next.prev := h.prev;
    h.prev := n.prev;
    h.prev.next := h;
    ghost var new' := [h] + (s + t);
    DistinctJoin(h, n, s, t);
    forall i, j | 0 <= i < |a| && 0 <= j < |b| ensures a[i] != b[j] {
      assert (a + b)[i] == a[i] && (a + b)[|a| + j] == b[j];
    }
    forall k | 0 <= k < |new'| ensures new'[k].next == Follows(new', k) && new'[k].prev == Leads(new', k) {
      if k < |a| {
        assert new'[k] == a[k] && old(a[k].next) == Follows(a, k) && old(a[k].prev) == Leads(a, k);
      } else {
        var j := k - |a| + 1;
        assert new'[k] == b[j] && old(b[j].next) == Follows(b, j) && old(b[j].prev) == Leads(b, j);
      }
    }
  }
}
