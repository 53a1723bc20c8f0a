/** Keys of the red-black trees: the timers are ordered by timeout and address
    (uv__timer_cmp), the signal watchers by signal number, loop and address
    (uv__signal_compare). */
module TreeOrder {

  datatype Key = Key(major: int, minor: int, address: int)

  function Compare(a: Key, b: Key): int {
    if a.major < b.major then -1
    else if a.major > b.major then 1
    else if a.minor < b.minor then -1
    else if a.minor > b.minor then 1
    else if a.address < b.address then -1
    else if a.address > b.address then 1
    else 0
  }

  predicate Less(a: Key, b: Key) {
    Compare(a, b) < 0
  }

  lemma CompareIsATotalOrder(a: Key, b: Key, c: Key)
    ensures Compare(a, b) == 0 <==> a == b
    ensures Compare(a, b) < 0 <==> Compare(b, a) > 0
    ensures Less(a, b) && Less(b, c) ==> Less(a, c)
  {
  }
}

/** The ghost side of the red-black trees: the tree as a value, and the tree with one
    subtree taken out (a context), on which the parent links run. */
module TreeShape {
  import opened TreeOrder

  class Node {
    var left: Node?
    var right: Node?
    var parent: Node?
    var red: bool
    var key: Key
  }

  datatype Element = Element(node: Node, key: Key)

  datatype Tree = Leaf | Br(l: Tree, e: Element, red: bool, r: Tree)

  /** The path from a hole up to the root: `onLeft` tells which child of `e` the hole is,
      `other` is the subtree on the other side. */
  datatype Ctx = Top | In(up: Ctx, onLeft: bool, e: Element, red: bool, other: Tree)

  /** The tree with root `e` that has `t` on the given side. */
  ghost function Join(t: Tree, onLeft: bool, e: Element, red: bool, other: Tree): Tree {
    if onLeft then Br(t, e, red, other) else Br(other, e, red, t)
  }

  ghost function Ptr(t: Tree): Node? {
    if t.Leaf? then null else t.e.node
  }

  ghost predicate Red(t: Tree) {
    t.Br? && t.red
  }

  ghost function Nodes(t: Tree): set<Node> {
    if t.Leaf? then {} else Nodes(t.l) + {t.e.node} + Nodes(t.r)
  }

  ghost function CNodes(c: Ctx): set<Node> {
    if c.Top? then {} else CNodes(c.up) + {c.e.node} + Nodes(c.other)
  }

  ghost function Par(c: Ctx): Node? {
    if c.Top? then null else c.e.node
  }

  ghost function Fill(c: Ctx, t: Tree): Tree {
    if c.Top? then t else Fill(c.up, Join(t, c.onLeft, c.e, c.red, c.other))
  }

  ghost function Depth(c: Ctx): nat {
    if c.Top? then 0 else 1 + Depth(c.up)
  }

  ghost function Graft(c: Ctx, base: Ctx): Ctx {
    if c.Top? then base else c.(up := Graft(c.up, base))
  }

  /** No node occurs twice. */
  ghost predicate Distinct(t: Tree) {
    t.Br? ==>
      && t.e.node !in Nodes(t.l) && t.e.node !in Nodes(t.r) && Nodes(t.l) !! Nodes(t.r)
      && Distinct(t.l) && Distinct(t.r)
  }

  ghost predicate CDistinct(c: Ctx) {
    c.In? ==>
      && c.e.node !in Nodes(c.other) && c.e.node !in CNodes(c.up) && Nodes(c.other) !! CNodes(c.up)
      && Distinct(c.other) && CDistinct(c.up)
  }

  /** The pointers in memory agree with the value, children and parents alike. */
  ghost predicate Shape(t: Tree, par: Node?)
    reads Nodes(t)
    decreases t
  {
    t.Br? ==>
      var n := t.e.node;
      && n.parent == par && n.red == t.red && n.key == t.e.key
      && n.left == Ptr(t.l) && n.right == Ptr(t.r)
      && Shape(t.l, n) && Shape(t.r, n)
  }

  ghost predicate CShape(c: Ctx, hole: Node?, root: Node?)
    reads CNodes(c)
    decreases c
  {
    if c.Top? then root == hole else
    var n := c.e.node;
    && n.parent == Par(c.up) && n.red == c.red && n.key == c.e.key
    && n.left == (if c.onLeft then hole else Ptr(c.other))
    && n.right == (if c.onLeft then Ptr(c.other) else hole)
    && Shape(c.other, n) && CShape(c.up, n, root)
  }

  /** Memory holds the tree `t` below the context `c`. */
  ghost predicate Zip(c: Ctx, t: Tree, root: Node?)
    reads CNodes(c), Nodes(t)
  {
    && Shape(t, Par(c)) && CShape(c, Ptr(t), root)
    && Distinct(t) && CDistinct(c) && Nodes(t) !! CNodes(c)
  }

  lemma ZipLeft(c: Ctx, t: Tree, root: Node?)
    requires t.Br?
    ensures Zip(c, t, root) <==> Zip(In(c, true, t.e, t.red, t.r), t.l, root)
  {
  }

  lemma ZipRight(c: Ctx, t: Tree, root: Node?)
    requires t.Br?
    ensures Zip(c, t, root) <==> Zip(In(c, false, t.e, t.red, t.l), t.r, root)
  {
  }

  lemma ZipUp(c: Ctx, t: Tree, root: Node?)
    requires c.In?
    ensures Zip(c, t, root) <==> Zip(c.up, Join(t, c.onLeft, c.e, c.red, c.other), root)
  {
    if c.onLeft {
      ZipLeft(c.up, Br(t, c.e, c.red, c.other), root);
    } else {
      ZipRight(c.up, Br(c.other, c.e, c.red, t), root);
    }
  }

  /** A context can be folded into the tree and unfolded again. */
  lemma {:induction false} ZipFill(c: Ctx, base: Ctx, t: Tree, root: Node?)
    ensures Zip(Graft(c, base), t, root) <==> Zip(base, Fill(c, t), root)
  {
    if c.In? {
      ZipUp(Graft(c, base), t, root);
      ZipFill(c.up, base, Join(t, c.onLeft, c.e, c.red, c.other), root);
    }
  }

  lemma {:induction false} GraftTop(c: Ctx)
    ensures Graft(c, Top) == c
  {
    if c.In? {
      GraftTop(c.up);
    }
  }

  // ---- contents ----

  ghost function Elements(t: Tree): seq<Element> {
    if t.Leaf? then [] else Elements(t.l) + [t.e] + Elements(t.r)
  }

  /** The contents of the whole tree when the hole contains `s`. */
  ghost function Around(c: Ctx, s: seq<Element>): seq<Element> {
    if c.Top? then s
    else if c.onLeft then Around(c.up, s + [c.e] + Elements(c.other))
    else Around(c.up, Elements(c.other) + [c.e] + s)
  }

  lemma {:induction false} ElementsOfFill(c: Ctx, t: Tree)
    ensures Elements(Fill(c, t)) == Around(c, Elements(t))
    decreases c
  {
    if c.In? {
      ElementsOfFill(c.up, Join(t, c.onLeft, c.e, c.red, c.other));
    }
  }

  /** The elements before and after the hole. */
  ghost function Before(c: Ctx): seq<Element> {
    if c.Top? then [] else Before(c.up) + if c.onLeft then [] else Elements(c.other) + [c.e]
  }

  ghost function After(c: Ctx): seq<Element> {
    if c.Top? then [] else (if c.onLeft then [c.e] + Elements(c.other) else []) + After(c.up)
  }

  lemma {:induction false} AroundIs(c: Ctx, s: seq<Element>)
    ensures Around(c, s) == Before(c) + s + After(c)
    decreases c
  {
    if c.In? {
      if c.onLeft {
        AroundIs(c.up, s + [c.e] + Elements(c.other));
      } else {
        AroundIs(c.up, Elements(c.other) + [c.e] + s);
      }
    }
  }

  /** Different addresses have different nodes. */
  ghost predicate Injective(handles: map<int, Node>) {
    forall a, b | a in handles && b in handles && a != b :: handles[a] != handles[b]
  }

  lemma NoNodes(t: Tree)
    requires Elements(t) == []
    ensures Nodes(t) == {}
  {
  }

  ghost function Members(s: seq<Element>): set<Element> {
    set e | e in s
  }

  lemma NoMembers(s: seq<Element>)
    ensures Members(s) == {} ==> s == []
  {
    if s != [] { assert s[0] in Members(s); }
  }

  ghost function NodesOf(s: seq<Element>): set<Node> {
    set e | e in s :: e.node
  }

  lemma {:induction false} NodesOfElements(t: Tree)
    ensures Nodes(t) == NodesOf(Elements(t))
  {
    if t.Br? {
      NodesOfElements(t.l);
      NodesOfElements(t.r);
      NodesOfConcat(Elements(t.l), [t.e]);
      NodesOfConcat(Elements(t.l) + [t.e], Elements(t.r));
      assert NodesOf([t.e]) == {t.e.node};
    }
  }

  lemma NodesOfConcat(a: seq<Element>, b: seq<Element>)
    ensures NodesOf(a + b) == NodesOf(a) + NodesOf(b)
  {
    forall n | n in NodesOf(a) + NodesOf(b) ensures n in NodesOf(a + b) {
      var e :| (e in a || e in b) && e.node == n;
      assert e in a + b;
    }
  }

  lemma {:induction false} NodesOfAround(c: Ctx, s: seq<Element>)
    ensures NodesOf(Around(c, s)) == CNodes(c) + NodesOf(s)
    decreases c
  {
    if c.In? {
      NodesOfElements(c.other);
      assert NodesOf([c.e]) == {c.e.node};
      if c.onLeft {
        NodesOfConcat(s, [c.e]);
        NodesOfConcat(s + [c.e], Elements(c.other));
        NodesOfAround(c.up, s + [c.e] + Elements(c.other));
      } else {
        NodesOfConcat(Elements(c.other), [c.e]);
        NodesOfConcat(Elements(c.other) + [c.e], s);
        NodesOfAround(c.up, Elements(c.other) + [c.e] + s);
      }
    }
  }

  /** The nodes of a zipper depend only on its contents. */
  lemma ZipNodes(c: Ctx, t: Tree)
    ensures CNodes(c) + Nodes(t) == NodesOf(Around(c, Elements(t)))
  {
    NodesOfAround(c, Elements(t));
    NodesOfElements(t);
  }

  // ---- search order ----

  ghost predicate Sorted(s: seq<Element>) {
    forall i, j :: 0 <= i < j < |s| ==> Less(s[i].key, s[j].key)
  }

  ghost predicate Below(s: seq<Element>, k: Key) {
    forall e :: e in s ==> Less(e.key, k)
  }

  ghost predicate Above(s: seq<Element>, k: Key) {
    forall e :: e in s ==> Less(k, e.key)
  }

  lemma SortedParts(a: seq<Element>, e: Element, b: seq<Element>)
    requires Sorted(a + [e] + b)
    ensures Sorted(a) && Sorted(b) && Below(a, e.key) && Above(b, e.key)
  {
    var s := a + [e] + b;
    assert s[|a|] == e;
    assert forall i :: 0 <= i < |a| ==> a[i] == s[i];
    assert forall i :: 0 <= i < |b| ==> b[i] == s[|a| + 1 + i];
  }

  lemma SortedWhole(a: seq<Element>, e: Element, b: seq<Element>)
    requires Sorted(a) && Sorted(b) && Below(a, e.key) && Above(b, e.key)
    ensures Sorted(a + [e] + b)
  {
    var s := a + [e] + b;
    forall i, j | 0 <= i < j < |s| ensures Less(s[i].key, s[j].key) {
      if i < |a| { assert s[i] == a[i] && a[i] in a; }
      if j > |a| { assert s[j] == b[j - |a| - 1] && b[j - |a| - 1] in b; }
    }
  }

  lemma SortedConcat(a: seq<Element>, e: Element, b: seq<Element>)
    ensures Sorted(a + [e] + b) <==> Sorted(a) && Sorted(b) && Below(a, e.key) && Above(b, e.key)
  {
    hide Sorted, Below, Above;
    if Sorted(a + [e] + b) {
      SortedParts(a, e, b);
    } else if Sorted(a) && Sorted(b) && Below(a, e.key) && Above(b, e.key) {
      SortedWhole(a, e, b);
    }
  }

  /** The turns a search for `k` takes to get to the hole. */
  ghost predicate SearchPath(c: Ctx, k: Key) {
    c.In? ==> SearchPath(c.up, k) && if c.onLeft then Less(k, c.e.key) else Less(c.e.key, k)
  }

  lemma {:induction false} SearchPathSplits(c: Ctx, s: seq<Element>, k: Key)
    requires Sorted(Around(c, s)) && SearchPath(c, k)
    ensures Sorted(s) && Below(Before(c), k) && Above(After(c), k)
    decreases c
  {
    if c.In? {
      var o := Elements(c.other);
      if c.onLeft {
        SearchPathSplits(c.up, s + [c.e] + o, k);
        SortedConcat(s, c.e, o);
      } else {
        SearchPathSplits(c.up, o + [c.e] + s, k);
        SortedConcat(o, c.e, s);
      }
    }
  }

  /** An element put at the end of its search path keeps the order. */
  lemma {:induction false} SearchPathInsert(c: Ctx, e: Element)
    requires Sorted(Around(c, [])) && SearchPath(c, e.key)
    ensures Sorted(Around(c, [e])) && Members(Around(c, [e])) == Members(Around(c, [])) + {e}
    ensures forall x :: x in Around(c, []) ==> x.key != e.key
  {
    hide Around, Before, After, SearchPath;
    SearchPathSplits(c, [], e.key);
    AroundIs(c, []);
    AroundIs(c, [e]);
    var a, b := Before(c), After(c);
    assert a + [] + b == a + b;
    SortedInsert(a, e, b);
  }

  lemma SortedInsert(a: seq<Element>, e: Element, b: seq<Element>)
    requires Sorted(a + b) && Below(a, e.key) && Above(b, e.key)
    ensures Sorted(a + [e] + b) && Members(a + [e] + b) == Members(a + b) + {e}
    ensures forall x :: x in a + b ==> x.key != e.key
  {
    assert forall i :: 0 <= i < |a| ==> a[i] == (a + b)[i];
    assert forall i :: 0 <= i < |b| ==> b[i] == (a + b)[|a| + i];
    SortedConcat(a, e, b);
  }

  // ---- colours ----

  ghost function BlackHeight(t: Tree): nat {
    if t.Leaf? then 0 else BlackHeight(t.l) + if t.red then 0 else 1
  }

  /** Every path has the same number of black nodes, and no red node has a red child. */
  ghost predicate RedBlack(t: Tree) {
    t.Br? ==>
      && RedBlack(t.l) && RedBlack(t.r) && BlackHeight(t.l) == BlackHeight(t.r)
      && (t.red ==> !Red(t.l) && !Red(t.r))
  }

  /** What a context asks of the tree in its hole: black height `h`, and a root whose
      colour may be red only if `red` says so. */
  ghost predicate CRedBlack(c: Ctx, h: nat, red: bool) {
    c.In? ==>
      && RedBlack(c.other) && BlackHeight(c.other) == h
      && (c.red ==> !red && !Red(c.other))
      && CRedBlack(c.up, h + if c.red then 0 else 1, c.red)
  }

  lemma {:induction false} RedBlackFill(c: Ctx, t: Tree)
    ensures RedBlack(Fill(c, t)) <==> RedBlack(t) && CRedBlack(c, BlackHeight(t), Red(t))
    decreases c
  {
    if c.In? {
      RedBlackFill(c.up, Join(t, c.onLeft, c.e, c.red, c.other));
    }
  }

  ghost function Paint(t: Tree, red: bool): Tree {
    if t.Leaf? then Leaf else t.(red := red)
  }

  ghost predicate RootBlack(c: Ctx) {
    c.Top? || (if c.up.Top? then !c.red else RootBlack(c.up))
  }
}
