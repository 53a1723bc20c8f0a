/** Which receive every cothread called last, and what it got from it. */
module Receipts {
  import opened Options
  import opened SchedulerState

  /** The `k`-th receive on channel `c`. */
  datatype Receipt = Receipt(c: Name, k: nat)

  /** `*result` of a cothread is what the log says of its last receive, unless that still blocks; the
      cothreads in the queue of a channel wait for the last receives on it, in this order; no two have
      called the same receive. */
  ghost predicate Kept(ch: map<Name, Channel>, logs: map<Name, Log>, result: map<nat, int>, last: map<nat, Receipt>) {
    ch.Keys == logs.Keys && AllRight(logs, result, last) && Differ(last) && AllInOrder(ch, logs, last)
  }

  ghost predicate AllRight(logs: map<Name, Log>, result: map<nat, int>, last: map<nat, Receipt>) {
    forall t | t in last :: Right(logs, result, t, last[t])
  }

  ghost predicate Differ(last: map<nat, Receipt>) {
    forall t, u | t in last && u in last && t != u :: last[t] != last[u]
  }

  ghost predicate AllInOrder(ch: map<Name, Channel>, logs: map<Name, Log>, last: map<nat, Receipt>) {
    forall c | c in ch :: c in logs && InOrder(c, ch[c].receivers, |logs[c].got|, last)
  }

  ghost predicate Right(logs: map<Name, Log>, result: map<nat, int>, t: nat, r: Receipt) {
    && r.c in logs && r.k < |logs[r.c].got|
    && (logs[r.c].got[r.k].Some? ==> t in result && result[t] == logs[r.c].got[r.k].value)
  }

  ghost predicate InOrder(c: Name, receivers: seq<nat>, calls: nat, last: map<nat, Receipt>) {
    && |receivers| <= calls
    && forall j | 0 <= j < |receivers| :: receivers[j] in last && last[receivers[j]] == Receipt(c, calls - |receivers| + j)
  }

  /** Nothing about receives has changed. */
  lemma KeptElsewhere(ch: map<Name, Channel>, logs: map<Name, Log>, result: map<nat, int>, last: map<nat, Receipt>,
                      ch': map<Name, Channel>, logs': map<Name, Log>)
    requires Kept(ch, logs, result, last) && ch'.Keys == logs'.Keys && ch.Keys <= ch'.Keys
    requires forall c | c in ch :: ch'[c].receivers == ch[c].receivers && logs'[c].got == logs[c].got
    requires forall c | c in ch' && c !in ch :: ch'[c].receivers == [] && logs'[c].got == []
    ensures Kept(ch', logs', result, last)
  {
    forall t | t in last ensures Right(logs', result, t, last[t]) { assert Right(logs, result, t, last[t]); }
    forall c | c in ch' ensures InOrder(c, ch'[c].receivers, |logs'[c].got|, last) {
      if c in ch { assert InOrder(c, ch[c].receivers, |logs[c].got|, last); }
    }
  }

  /** A receive that blocks. */
  lemma KeptBlocks(ch: map<Name, Channel>, logs: map<Name, Log>, result: map<nat, int>, last: map<nat, Receipt>, c: Name, t: nat)
    requires Kept(ch, logs, result, last) && c in ch && forall d | d in ch :: t !in ch[d].receivers
    ensures Kept(ch[c := ch[c].(receivers := ch[c].receivers + [t])], logs[c := logs[c].(got := logs[c].got + [None])],
                 result, last[t := Receipt(c, |logs[c].got|)])
  {
    var n := Receipt(c, |logs[c].got|);
    var logs', last' := logs[c := logs[c].(got := logs[c].got + [None])], last[t := n];
    var ch' := ch[c := ch[c].(receivers := ch[c].receivers + [t])];
    forall u | u in last' ensures Right(logs', result, u, last'[u]) && (u != t ==> last'[u] != n) {
      if u != t { assert Right(logs, result, u, last[u]); }
    }
    forall d | d in ch' ensures InOrder(d, ch'[d].receivers, |logs'[d].got|, last') {
      assert InOrder(d, ch[d].receivers, |logs[d].got|, last);
    }
  }

  /** A receive that takes the value of a waiting sender. */
  lemma KeptTakes(ch: map<Name, Channel>, logs: map<Name, Log>, result: map<nat, int>, last: map<nat, Receipt>, c: Name,
                  t: nat, v: int, k: Channel)
    requires Kept(ch, logs, result, last) && c in ch && forall d | d in ch :: t !in ch[d].receivers
    requires ch[c].receivers == [] == k.receivers
    ensures Kept(ch[c := k], logs[c := logs[c].(got := logs[c].got + [Some(v)])], result[t := v],
                 last[t := Receipt(c, |logs[c].got|)])
  {
    var n := Receipt(c, |logs[c].got|);
    var logs', last' := logs[c := logs[c].(got := logs[c].got + [Some(v)])], last[t := n];
    var ch' := ch[c := k];
    forall u | u in last' ensures Right(logs', result[t := v], u, last'[u]) && (u != t ==> last'[u] != n) {
      if u != t { assert Right(logs, result, u, last[u]); }
    }
    forall d | d in ch' ensures InOrder(d, ch'[d].receivers, |logs'[d].got|, last') {
      assert InOrder(d, ch[d].receivers, |logs[d].got|, last);
    }
  }

  /** The value of a send goes to the receive that has blocked longest. */
  lemma KeptDelivers(ch: map<Name, Channel>, logs: map<Name, Log>, result: map<nat, int>, last: map<nat, Receipt>, c: Name, v: int)
    requires Kept(ch, logs, result, last) && c in ch && ch[c].receivers != []
    ensures |ch[c].receivers| <= |logs[c].got|
    ensures var k, l := ch[c], logs[c];
      Kept(ch[c := k.(receivers := k.receivers[1..])],
           logs[c := Log(l.sent + [v], l.got[|l.got| - |k.receivers| := Some(v)])], result[k.receivers[0] := v], last)
  {
    var k, l, t := ch[c], logs[c], ch[c].receivers[0];
    assert InOrder(c, k.receivers, |l.got|, last);
    var i := |l.got| - |k.receivers|;
    assert last[t] == Receipt(c, i);
    var logs', ch' := logs[c := Log(l.sent + [v], l.got[i := Some(v)])], ch[c := k.(receivers := k.receivers[1..])];
    forall u | u in last ensures Right(logs', result[t := v], u, last[u]) {
      assert Right(logs, result, u, last[u]);
    }
    forall d | d in ch' ensures InOrder(d, ch'[d].receivers, |logs'[d].got|, last) {
      assert InOrder(d, ch[d].receivers, |logs[d].got|, last);
    }
  }

  /** Without the `i`-th receive on `c`. */
  function Forgotten(last: map<nat, Receipt>, c: Name, i: nat): map<nat, Receipt> {
    map t | t in last && last[t] != Receipt(c, i) ::
      if last[t].c == c && i < last[t].k then Receipt(c, last[t].k - 1) else last[t]
  }

  lemma ForgottenDiffer(last: map<nat, Receipt>, c: Name, i: nat)
    requires Differ(last)
    ensures Differ(Forgotten(last, c, i))
  {
    var f := Forgotten(last, c, i);
    forall t, u | t in f && u in f && t != u ensures f[t] != f[u] {
      assert last[t] != last[u] && last[t] != Receipt(c, i) && last[u] != Receipt(c, i);
    }
  }

  lemma RightBroken(logs: map<Name, Log>, result: map<nat, int>, last: map<nat, Receipt>, c: Name, i: nat, u: nat)
    requires u in last && Right(logs, result, u, last[u]) && last[u] != Receipt(c, i)
    requires c in logs && i < |logs[c].got|
    ensures Right(logs[c := logs[c].(got := Removed(logs[c].got, i))], result, u, Forgotten(last, c, i)[u])
  {
    var l := logs[c];
    assert last[u].c == c ==>
      if i < last[u].k then Removed(l.got, i)[last[u].k - 1] == l.got[last[u].k]
      else Removed(l.got, i)[last[u].k] == l.got[last[u].k];
  }

  lemma StillIn(last: map<nat, Receipt>, c: Name, i: nat, u: nat)
    requires u in Forgotten(last, c, i)
    ensures u in last && last[u] != Receipt(c, i)
  {
  }

  lemma RemovedSize<T>(s: seq<T>, i: nat)
    requires i < |s|
    ensures |Removed(s, i)| == |s| - 1
  {
  }

  lemma InOrderBroken(receivers: seq<nat>, calls: nat, last: map<nat, Receipt>, c: Name, p: nat)
    requires InOrder(c, receivers, calls, last) && p < |receivers| && Distinct(receivers)
    ensures InOrder(c, Removed(receivers, p), calls - 1, Forgotten(last, c, calls - |receivers| + p))
  {
    var i, q := calls - |receivers| + p, Removed(receivers, p);
    forall j | 0 <= j < |q|
      ensures q[j] in Forgotten(last, c, i) && Forgotten(last, c, i)[q[j]] == Receipt(c, calls - 1 - |q| + j)
    {
      var m := if j < p then j else j + 1;
      assert q[j] == receivers[m] && last[receivers[m]] == Receipt(c, calls - |receivers| + m);
    }
  }

  lemma InOrderElsewhere(receivers: seq<nat>, calls: nat, last: map<nat, Receipt>, d: Name, c: Name, i: nat)
    requires InOrder(d, receivers, calls, last) && d != c
    ensures InOrder(d, receivers, calls, Forgotten(last, c, i))
  {
  }

  lemma RightWithout(logs: map<Name, Log>, result: map<nat, int>, t: nat, v: int, u: nat, r: Receipt)
    requires Right(logs, result, u, r) && u != t
    ensures Right(logs, result[t := v], u, r)
  {
  }

  lemma AllRightBroken(logs: map<Name, Log>, result: map<nat, int>, last: map<nat, Receipt>, c: Name, i: nat, t: nat, v: int)
    requires AllRight(logs, result, last) && c in logs && i < |logs[c].got|
    requires t in last && last[t] == Receipt(c, i)
    ensures AllRight(logs[c := logs[c].(got := Removed(logs[c].got, i))], result[t := v], Forgotten(last, c, i))
  {
    hide Right, Removed, Forgotten;
    var f, logs' := Forgotten(last, c, i), logs[c := logs[c].(got := Removed(logs[c].got, i))];
    forall u | u in f ensures Right(logs', result[t := v], u, f[u]) {
      StillIn(last, c, i, u);
      RightBroken(logs, result, last, c, i, u);
      RightWithout(logs', result, t, v, u, f[u]);
    }
  }

  lemma AllInOrderBroken(ch: map<Name, Channel>, logs: map<Name, Log>, last: map<nat, Receipt>, c: Name, p: nat)
    requires AllInOrder(ch, logs, last) && c in ch && p < |ch[c].receivers| <= |logs[c].got| && Distinct(ch[c].receivers)
    ensures var k, l := ch[c], logs[c]; var i := |l.got| - |k.receivers| + p;
      AllInOrder(ch[c := k.(receivers := Removed(k.receivers, p))], logs[c := l.(got := Removed(l.got, i))],
                 Forgotten(last, c, i))
  {
    hide InOrder, Removed, Forgotten, Distinct;
    var k, l := ch[c], logs[c];
    var i := |l.got| - |k.receivers| + p;
    RemovedSize(l.got, i);
    InOrderBroken(k.receivers, |l.got|, last, c, p);
    forall d | d in ch && d != c ensures d in logs && InOrder(d, ch[d].receivers, |logs[d].got|, Forgotten(last, c, i)) {
      InOrderElsewhere(ch[d].receivers, |logs[d].got|, last, d, c, i);
    }
  }

  /** The receive of `t` is broken off, which leaves some value in its `*result`. */
  lemma KeptBroken(ch: map<Name, Channel>, logs: map<Name, Log>, result: map<nat, int>, last: map<nat, Receipt>, c: Name,
                   t: nat, v: int)
    requires Kept(ch, logs, result, last) && c in ch && t in ch[c].receivers && Distinct(ch[c].receivers)
    ensures var k, l := ch[c], logs[c]; var p := IndexOf(k.receivers, t);
      && |k.receivers| <= |l.got|
      && Kept(ch[c := k.(receivers := Removed(k.receivers, p))],
              logs[c := l.(got := Removed(l.got, |l.got| - |k.receivers| + p))], result[t := v],
              Forgotten(last, c, |l.got| - |k.receivers| + p))
  {
    hide Without, Right, Removed, Forgotten, Distinct, AllRight, Differ;
    var k, l, p := ch[c], logs[c], IndexOf(ch[c].receivers, t);
    assert InOrder(c, k.receivers, |l.got|, last);
    var i := |l.got| - |k.receivers| + p;
    assert last[t] == Receipt(c, i);
    hide AllInOrder, InOrder;
    ForgottenDiffer(last, c, i);
    AllRightBroken(logs, result, last, c, i, t, v);
    AllInOrderBroken(ch, logs, last, c, p);
  }
}
