/** The red-black algorithms on tree values (libuv/include/uv-private/tree.h): what each
    rotation and recolouring does to the colours and to the contents. */
module TreeBalance {
  import opened TreeOrder
  import opened TreeShape

  ghost function RotatedLeft(t: Tree): Tree
    requires t.Br? && t.r.Br?
  {
    Br(Br(t.l, t.e, t.red, t.r.l), t.r.e, t.r.red, t.r.r)
  }

  ghost function RotatedRight(t: Tree): Tree
    requires t.Br? && t.l.Br?
  {
    Br(t.l.l, t.l.e, t.l.red, Br(t.l.r, t.e, t.red, t.r))
  }

  /** Two nodes and three subtrees below `c` have nothing in common. */
  ghost predicate Apart(c: Ctx, a: Tree, x: Node, b: Tree, y: Node, d: Tree) {
    && x != y && Distinct(a) && Distinct(b) && Distinct(d) && CDistinct(c)
    && x !in CNodes(c) && y !in CNodes(c)
    && x !in Nodes(a) && x !in Nodes(b) && x !in Nodes(d)
    && y !in Nodes(a) && y !in Nodes(b) && y !in Nodes(d)
    && Nodes(a) !! Nodes(b) && Nodes(a) !! Nodes(d) && Nodes(b) !! Nodes(d)
    && Nodes(a) !! CNodes(c) && Nodes(b) !! CNodes(c) && Nodes(d) !! CNodes(c)
  }

  lemma ApartLeft(c: Ctx, t: Tree)
    requires t.Br? && t.l.Br?
    ensures Distinct(t) && CDistinct(c) && Nodes(t) !! CNodes(c) <==>
      Apart(c, t.l.l, t.l.e.node, t.l.r, t.e.node, t.r)
  {
    assert Nodes(t) == Nodes(t.l) + {t.e.node} + Nodes(t.r);
    assert Nodes(t.l) == Nodes(t.l.l) + {t.l.e.node} + Nodes(t.l.r);
  }

  lemma ApartRight(c: Ctx, t: Tree)
    requires t.Br? && t.r.Br?
    ensures Distinct(t) && CDistinct(c) && Nodes(t) !! CNodes(c) <==>
      Apart(c, t.l, t.e.node, t.r.l, t.r.e.node, t.r.r)
  {
    assert Nodes(t) == Nodes(t.l) + {t.e.node} + Nodes(t.r);
    assert Nodes(t.r) == Nodes(t.r.l) + {t.r.e.node} + Nodes(t.r.r);
  }

  lemma RotatedLeftKeeps(t: Tree)
    requires t.Br? && t.r.Br?
    ensures Nodes(RotatedLeft(t)) == Nodes(t) && (Distinct(t) ==> Distinct(RotatedLeft(t)))
  {
    ApartRight(Top, t);
    ApartLeft(Top, RotatedLeft(t));
    assert Nodes(t) == Nodes(t.l) + {t.e.node} + Nodes(t.r);
    assert Nodes(t.r) == Nodes(t.r.l) + {t.r.e.node} + Nodes(t.r.r);
    var u := RotatedLeft(t);
    assert Nodes(u) == Nodes(u.l) + {u.e.node} + Nodes(u.r);
    assert Nodes(u.l) == Nodes(u.l.l) + {u.l.e.node} + Nodes(u.l.r);
  }

  lemma RotatedRightKeeps(t: Tree)
    requires t.Br? && t.l.Br?
    ensures Nodes(RotatedRight(t)) == Nodes(t) && (Distinct(t) ==> Distinct(RotatedRight(t)))
  {
    ApartLeft(Top, t);
    ApartRight(Top, RotatedRight(t));
    assert Nodes(t) == Nodes(t.l) + {t.e.node} + Nodes(t.r);
    assert Nodes(t.l) == Nodes(t.l.l) + {t.l.e.node} + Nodes(t.l.r);
    var u := RotatedRight(t);
    assert Nodes(u) == Nodes(u.l) + {u.e.node} + Nodes(u.r);
    assert Nodes(u.r) == Nodes(u.r.l) + {u.r.e.node} + Nodes(u.r.r);
  }

  lemma Regroup<T>(a: seq<T>, x: T, b: seq<T>, y: T, d: seq<T>)
    ensures a + [x] + (b + [y] + d) == a + [x] + b + [y] + d
  {
  }

  lemma Centre<T>(a: seq<T>, b: seq<T>, x: T, c: seq<T>, d: seq<T>)
    ensures a + (b + [x] + c) + d == (a + b) + [x] + (c + d)
  {
  }

  lemma CutAt<T>(a: seq<T>, x: T, b: seq<T>)
    ensures var s := a + [x] + b;
      |a| < |s| && s[..|a|] == a && s[|a|] == x && s[|a| + 1..] == b
  {
  }

  lemma RotatedLeftElements(t: Tree)
    requires t.Br? && t.r.Br?
    ensures Elements(RotatedLeft(t)) == Elements(t)
  {
    Regroup(Elements(t.l), t.e, Elements(t.r.l), t.r.e, Elements(t.r.r));
  }

  lemma RotatedRightElements(t: Tree)
    requires t.Br? && t.l.Br?
    ensures Elements(RotatedRight(t)) == Elements(t)
  {
    Regroup(Elements(t.l.l), t.l.e, Elements(t.l.r), t.e, Elements(t.r));
  }

  // ---- rebalancing after an insertion, on values ----

  /** One turn of the loop in RB_INSERT_COLOR, for a red node at the root of `t` whose
      parent, at the bottom of `c`, is red too. */
  ghost function InsertStep(c: Ctx, t: Tree): (Ctx, Tree)
    requires t.Br? && c.In? && c.up.In?
  {
    var up, g, side, uncle := c.up.up, c.up.e, c.up.onLeft, c.up.other;
    var parent := Join(t, c.onLeft, c.e, true, c.other);
    if Red(uncle) then
      (up, Join(Paint(parent, false), side, g, true, Paint(uncle, false)))
    else if side then
      var p := if c.onLeft then parent else RotatedLeft(parent);
      (In(up, true, p.e, false, Br(p.r, g, true, uncle)), p.l)
    else
      var p := if c.onLeft then RotatedRight(parent) else parent;
      (In(up, false, p.e, false, Br(uncle, g, true, p.l)), p.r)
  }

  /** The tree is in order except that the red root of `t` may have a red parent. */
  ghost predicate RedRedAtMost(c: Ctx, t: Tree) {
    Red(t) && RedBlack(t) && CRedBlack(c, BlackHeight(t), false) && RootBlack(c)
  }

  lemma InsertStepColours(c: Ctx, t: Tree)
    requires c.In? && c.red && RedRedAtMost(c, t)
    ensures c.up.In? && !c.up.red
    ensures var (c', t') := InsertStep(c, t); RedRedAtMost(c', t') && Depth(c') < Depth(c)
  {
    var h := BlackHeight(t);
    assert CRedBlack(c.up, h, true);
    assert RootBlack(c.up);
    if Red(c.up.other) {
      var parent := Join(t, c.onLeft, c.e, false, c.other);
      assert RedBlack(parent) && BlackHeight(parent) == h + 1;
      var uncle := Paint(c.up.other, false);
      assert RedBlack(uncle) && BlackHeight(uncle) == h + 1;
    }
  }

  lemma InsertStepElements(c: Ctx, t: Tree)
    requires t.Br? && c.In? && c.up.In?
    ensures var (c', t') := InsertStep(c, t); Around(c', Elements(t')) == Around(c, Elements(t))
  {
    var up, g, side, uncle := c.up.up, c.up.e, c.up.onLeft, c.up.other;
    var parent := Join(t, c.onLeft, c.e, true, c.other);
    assert Around(c, Elements(t)) == Around(up, Elements(Join(parent, side, g, true, uncle)));
    if Red(uncle) {
    } else if side {
      if !c.onLeft {
        RotatedLeftElements(parent);
      }
      var p := if c.onLeft then parent else RotatedLeft(parent);
      RotatedRightElements(Br(p, g, true, uncle));
    } else {
      if c.onLeft {
        RotatedRightElements(parent);
      }
      var p := if c.onLeft then RotatedRight(parent) else parent;
      RotatedLeftElements(Br(uncle, g, true, p));
    }
  }

  /** Without a red parent, no red-red edge is left. */
  lemma InsertDone(c: Ctx, t: Tree)
    requires RedRedAtMost(c, t) && (c.In? ==> !c.red)
    ensures RedBlack(Fill(c, t)) && Fill(c, t).Br?
  {
    RedBlackFill(c, t);
    FillBr(c, t);
  }

  lemma {:induction false} FillBr(c: Ctx, t: Tree)
    requires t.Br?
    ensures Fill(c, t).Br?
    decreases c
  {
    if c.In? {
      FillBr(c.up, Join(t, c.onLeft, c.e, c.red, c.other));
    }
  }

  // ---- rebalancing after a removal, on values ----

  /** The child of `w` nearer to the hole, and the one farther from it. */
  ghost function Inner(onLeft: bool, w: Tree): Tree
    requires w.Br?
  {
    if onLeft then w.l else w.r
  }

  ghost function Outer(onLeft: bool, w: Tree): Tree
    requires w.Br?
  {
    if onLeft then w.r else w.l
  }

  /** The tree is in order except that every path through `t`, which may have a red root with
      red children, has one black node too few. */
  ghost predicate OneBlackShort(c: Ctx, t: Tree) {
    RedBlack(Paint(t, false)) && CRedBlack(c, BlackHeight(t) + 1, false) && RootBlack(c)
  }

  /** RB_REMOVE_COLOR, red sibling: it is rotated up, its inner child is the new sibling. */
  ghost function RaiseSibling(c: Ctx): Ctx
    requires c.In? && c.other.Br?
  {
    In(In(c.up, c.onLeft, c.other.e, false, Outer(c.onLeft, c.other)),
       c.onLeft, c.e, true, Inner(c.onLeft, c.other))
  }

  lemma RaiseSiblingKeeps(c: Ctx, t: Tree)
    requires OneBlackShort(c, t) && c.In? && Red(c.other)
    ensures !c.red && OneBlackShort(RaiseSibling(c), t) && !Red(RaiseSibling(c).other)
    ensures Around(RaiseSibling(c), Elements(t)) == Around(c, Elements(t))
  {
    var w := c.other;
    if c.onLeft {
      Regroup(Elements(t), c.e, Elements(w.l), w.e, Elements(w.r));
    } else {
      Regroup(Elements(w.l), w.e, Elements(w.r), c.e, Elements(t));
    }
  }

  /** Black sibling with two black children: it turns red, and the shortage moves up. */
  ghost function PassUp(c: Ctx, t: Tree): Tree
    requires c.In?
  {
    Join(t, c.onLeft, c.e, c.red, Paint(c.other, true))
  }

  lemma PassUpKeeps(c: Ctx, t: Tree)
    requires OneBlackShort(c, t) && !Red(t) && c.In? && c.other.Br?
    requires !c.other.red && !Red(c.other.l) && !Red(c.other.r)
    ensures OneBlackShort(c.up, PassUp(c, t))
    ensures Around(c.up, Elements(PassUp(c, t))) == Around(c, Elements(t))
  {
    assert t == Paint(t, false);
    var w := Paint(c.other, true);
    assert RedBlack(w) && BlackHeight(w) == BlackHeight(t);
    var u := PassUp(c, t);
    assert RedBlack(Paint(u, false)) && BlackHeight(u) == BlackHeight(t) + if c.red then 0 else 1;
    assert CRedBlack(c.up, BlackHeight(u) + 1, c.red);
  }

  /** Black sibling whose red child is the inner one: that child is rotated up. */
  ghost function RaiseNephew(onLeft: bool, w: Tree): Tree
    requires w.Br? && Inner(onLeft, w).Br?
  {
    if onLeft then Br(w.l.l, w.l.e, false, Br(w.l.r, w.e, true, w.r))
    else Br(Br(w.l, w.e, true, w.r.l), w.r.e, false, w.r.r)
  }

  lemma RaiseNephewKeeps(c: Ctx, t: Tree)
    requires OneBlackShort(c, t) && c.In? && c.other.Br? && !c.other.red
    requires Red(Inner(c.onLeft, c.other)) && !Red(Outer(c.onLeft, c.other))
    ensures var c' := c.(other := RaiseNephew(c.onLeft, c.other));
      && OneBlackShort(c', t) && c'.other.Br? && !c'.other.red && Red(Outer(c.onLeft, c'.other))
      && Elements(c'.other) == Elements(c.other)
      && Around(c', Elements(t)) == Around(c, Elements(t))
  {
    var w := c.other;
    assert RedBlack(w) && RedBlack(w.l) && RedBlack(w.r);
    var u := RaiseNephew(c.onLeft, w);
    assert RedBlack(u.l) && RedBlack(u.r) && BlackHeight(u.l) == BlackHeight(u.r);
    if c.onLeft {
      Regroup(Elements(w.l.l), w.l.e, Elements(w.l.r), w.e, Elements(w.r));
    } else {
      Regroup(Elements(w.l), w.e, Elements(w.r.l), w.r.e, Elements(w.r.r));
    }
  }

  /** Black sibling whose outer child is red: a rotation at the parent ends the shortage. */
  ghost function Settle(c: Ctx, t: Tree): Tree
    requires c.In? && c.other.Br?
  {
    var w := c.other;
    Join(Join(t, c.onLeft, c.e, false, Inner(c.onLeft, w)), c.onLeft, w.e, c.red, Paint(Outer(c.onLeft, w), false))
  }

  lemma SettleKeeps(c: Ctx, t: Tree)
    requires OneBlackShort(c, t) && !Red(t) && c.In? && c.other.Br? && !c.other.red
    requires Red(Outer(c.onLeft, c.other))
    ensures RedBlack(Fill(c.up, Settle(c, t)))
    ensures Around(c.up, Elements(Settle(c, t))) == Around(c, Elements(t))
  {
    assert t == Paint(t, false);
    var w, u := c.other, Settle(c, t);
    assert RedBlack(w) && RedBlack(w.l) && RedBlack(w.r);
    var outer := Paint(Outer(c.onLeft, w), false);
    var lower := Join(t, c.onLeft, c.e, false, Inner(c.onLeft, w));
    assert RedBlack(lower) && BlackHeight(lower) == BlackHeight(w);
    assert RedBlack(outer) && BlackHeight(outer) == BlackHeight(w);
    assert RedBlack(u) && BlackHeight(u) == BlackHeight(w) + if c.red then 0 else 1;
    RedBlackFill(c.up, u);
    if c.onLeft {
      Regroup(Elements(t), c.e, Elements(w.l), w.e, Elements(w.r));
    } else {
      Regroup(Elements(w.l), w.e, Elements(w.r), c.e, Elements(t));
    }
  }

  lemma {:induction false} RootOfContext(c: Ctx, hole: Node?, root: Node?)
    requires CShape(c, hole, root) && c.In?
    ensures root in CNodes(c)
  {
    if c.up.In? {
      RootOfContext(c.up, c.e.node, root);
    }
  }

  lemma {:induction false} RootColour(c: Ctx, t: Tree)
    requires c.In?
    ensures RootBlack(c) <==> !Red(Fill(c, t))
  {
    if c.up.In? {
      RootColour(c.up, Join(t, c.onLeft, c.e, c.red, c.other));
    }
  }

  /** Painting the short subtree's root black is the last step, at the root or at a red node. */
  lemma ShortageOver(c: Ctx, t: Tree)
    requires OneBlackShort(c, t) && (Red(t) || c.Top?)
    ensures var whole := Fill(c, Paint(t, false));
      RedBlack(whole) && !Red(whole) && Elements(whole) == Around(c, Elements(t))
  {
    RedBlackFill(c, Paint(t, false));
    ElementsOfFill(c, Paint(t, false));
    if c.In? {
      RootColour(c, Paint(t, false));
    }
  }

  /** Taking out a node with at most one child leaves its place short if it was black. */
  lemma UnhookBlack(c: Ctx, t: Tree, child: Tree)
    requires t.Br? && !t.red && RedBlack(Fill(c, t)) && !Red(Fill(c, t))
    requires (t.l.Leaf? && child == t.r) || (t.r.Leaf? && child == t.l)
    ensures OneBlackShort(c, child)
  {
    RedBlackFill(c, t);
    if c.In? {
      RootColour(c, t);
    }
    assert RedBlack(child) && BlackHeight(t) == BlackHeight(child) + 1;
    assert CRedBlack(c, BlackHeight(t), false);
  }

  /** A red node with at most one child had none. */
  lemma UnhookRed(c: Ctx, t: Tree, child: Tree)
    requires t.Br? && t.red && RedBlack(Fill(c, t)) && !Red(Fill(c, t))
    requires (t.l.Leaf? && child == t.r) || (t.r.Leaf? && child == t.l)
    ensures RedBlack(Fill(c, child)) && !Red(Fill(c, child))
  {
    RedBlackFill(c, t);
    assert BlackHeight(child) == 0 && !Red(child);
    assert child.Leaf?;
    assert CRedBlack(c, 0, false);
    RedBlackFill(c, Leaf);
    RootColour(c, t);
    RootColour(c, Leaf);
  }

  lemma UnhookColours(c: Ctx, t: Tree, child: Tree)
    requires t.Br? && RedBlack(Fill(c, t)) && !Red(Fill(c, t))
    requires (t.l.Leaf? && child == t.r) || (t.r.Leaf? && child == t.l)
    ensures Unhooked(c, child, t.red)
  {
    if t.red {
      UnhookRed(c, t, child);
    } else {
      UnhookBlack(c, t, child);
    }
  }

  // ---- taking out a node with two children, on values ----

  /** The path down the left edge of a tree. */
  ghost predicate LeftEdge(c: Ctx) {
    c.In? ==> c.onLeft && LeftEdge(c.up)
  }

  lemma {:induction false} LeftEdgeElements(c: Ctx, s: seq<Element>)
    requires LeftEdge(c)
    ensures Around(c, s) == s + After(c)
  {
    AroundIs(c, s);
    LeftEdgeBefore(c);
  }

  lemma {:induction false} LeftEdgeBefore(c: Ctx)
    requires LeftEdge(c)
    ensures Before(c) == []
  {
    if c.In? {
      LeftEdgeBefore(c.up);
    }
  }

  /** Which element sits at a node of the path has no bearing on the colours. */
  lemma {:induction false} RelabelColours(s: Ctx, c: Ctx, e: Element, h: nat, red: bool)
    requires c.In?
    ensures CRedBlack(Graft(s, c), h, red) <==> CRedBlack(Graft(s, c.(e := e)), h, red)
    ensures RootBlack(Graft(s, c)) <==> RootBlack(Graft(s, c.(e := e)))
  {
    if s.In? {
      RelabelColours(s.up, c, e, h + if s.red then 0 else 1, s.red);
    }
  }

  /** Dropping one element of a sorted sequence. */
  lemma DropElement(a: seq<Element>, e: Element, b: seq<Element>)
    requires Sorted(a + [e] + b)
    ensures Sorted(a + b) && Members(a + b) == Members(a + [e] + b) - {e}
  {
    SortedConcat(a, e, b);
    var s := a + b;
    forall i, j | 0 <= i < j < |s| ensures Less(s[i].key, s[j].key) {
      if i < |a| <= j {
        assert a[i] in a && b[j - |a|] in b;
        CompareIsATotalOrder(a[i].key, e.key, b[j - |a|].key);
      }
    }
  }

  /** The subtree at node `n`, and the way to it. */
  lemma {:induction false} Locate(c: Ctx, t: Tree, n: Node) returns (c': Ctx, s: Tree)
    requires n in Nodes(t)
    ensures Fill(c', s) == Fill(c, t) && s.Br? && s.e.node == n
    decreases t
  {
    if t.e.node == n {
      return c, t;
    } else if n in Nodes(t.l) {
      c', s := Locate(In(c, true, t.e, t.red, t.r), t.l, n);
    } else {
      c', s := Locate(In(c, false, t.e, t.red, t.l), t.r, n);
    }
  }

  lemma FoundElement(c: Ctx, t: Tree)
    requires t.Br?
    ensures t.e in Members(Elements(Fill(c, t)))
  {
    ElementsOfFill(c, t);
    AroundIs(c, Elements(t));
  }

  /** The whole tree after a red leaf is put at the end of its search path. */
  lemma InsertPlan(tree: Tree, c: Ctx, e: Element)
    requires RedBlack(tree) && !Red(tree) && Sorted(Elements(tree))
    requires Fill(c, Leaf) == tree && SearchPath(c, e.key)
    ensures var t := Br(Leaf, e, true, Leaf);
      && RedRedAtMost(c, t) && Elements(t) == [e]
      && Sorted(Around(c, [e])) && Members(Around(c, [e])) == Members(Elements(tree)) + {e}
    ensures forall x :: x in Members(Elements(tree)) ==> x.key != e.key
  {
    ElementsOfFill(c, Leaf);
    SearchPathInsert(c, e);
    RedBlackFill(c, Leaf);
    if c.In? {
      RootColour(c, Leaf);
    }
  }

  lemma {:induction false} GraftLaws(s: Ctx, base: Ctx, t: Tree, m: seq<Element>)
    ensures Fill(Graft(s, base), t) == Fill(base, Fill(s, t))
    ensures Around(Graft(s, base), m) == Around(base, Around(s, m))
    decreases s
  {
    if s.In? {
      var o := Elements(s.other);
      GraftLaws(s.up, base, Join(t, s.onLeft, s.e, s.red, s.other),
                if s.onLeft then m + [s.e] + o else o + [s.e] + m);
    }
  }

  lemma SpliceNodes(c: Ctx, t: Tree, s: Ctx, t2: Tree)
    requires t.Br? && Fill(s, t2) == t.r && t2.Br?
    ensures var base := In(c, false, t.e, t.red, t.l);
      && Fill(Graft(s, base), t2) == Fill(c, t)
      && CNodes(Graft(s, base)) + Nodes(t2) == CNodes(c) + Nodes(t)
      && CNodes(s) + Nodes(t2) == Nodes(t.r)
  {
    var base := In(c, false, t.e, t.red, t.l);
    GraftLaws(s, base, t2, Elements(t2));
    ElementsOfFill(s, t2);
    ZipNodes(s, t2);
    NodesOfElements(t.r);
    ZipNodes(Graft(s, base), t2);
    ZipNodes(c, t);
  }

  /** What taking a node out of its place leaves to do: nothing if it was red. */
  ghost predicate Unhooked(c: Ctx, child: Tree, wasRed: bool) {
    if wasRed then RedBlack(Fill(c, child)) && !Red(Fill(c, child)) else OneBlackShort(c, child)
  }

  /** The successor's element moves to the place of the removed one. */
  lemma RelabelUnhooked(s: Ctx, base: Ctx, e: Element, child: Tree, wasRed: bool)
    requires base.In? && Unhooked(Graft(s, base), child, wasRed)
    ensures Unhooked(Graft(s, base.(e := e)), child, wasRed)
  {
    var c, c' := Graft(s, base), Graft(s, base.(e := e));
    RelabelColours(s, base, e, BlackHeight(child) + 1, false);
    RelabelColours(s, base, e, BlackHeight(child), Red(child));
    RedBlackFill(c, child);
    RedBlackFill(c', child);
    RootColour(c, child);
    RootColour(c', child);
  }

  /** The contents lose exactly the removed element. */
  ghost predicate Lost(whole: seq<Element>, e: Element, rest: seq<Element>) {
    Sorted(whole) ==> Sorted(rest) && Members(rest) == Members(whole) - {e}
  }

  lemma LostAround(c: Ctx, a: seq<Element>, e: Element, b: seq<Element>)
    ensures Lost(Around(c, a + [e] + b), e, Around(c, a + b))
  {
    AroundIs(c, a + [e] + b);
    AroundIs(c, a + b);
    Centre(Before(c), a, e, b, After(c));
    assert Before(c) + (a + b) + After(c) == (Before(c) + a) + (b + After(c));
    if Sorted(Around(c, a + [e] + b)) {
      DropElement(Before(c) + a, e, b + After(c));
    }
  }

  /** The successor is the leftmost element of the right subtree. */
  lemma LostAtSuccessor(c: Ctx, t: Tree, s: Ctx, t2: Tree)
    requires t.Br? && LeftEdge(s) && Fill(s, t2) == t.r && t2.Br? && t2.l.Leaf?
    ensures Lost(Around(c, Elements(t)), t.e, Around(Graft(s, In(c, false, t2.e, t.red, t.l)), Elements(t2.r)))
  {
    var base := In(c, false, t2.e, t.red, t.l);
    ElementsOfFill(s, t2);
    LeftEdgeElements(s, Elements(t2));
    LeftEdgeElements(s, Elements(t2.r));
    GraftLaws(s, base, t2.r, Elements(t2.r));
    var x := [t2.e] + (Elements(t2.r) + After(s));
    assert Elements(t.r) == x;
    assert Elements(t.l) + [t2.e] + (Elements(t2.r) + After(s)) == Elements(t.l) + x;
    LostAround(c, Elements(t.l), t.e, x);
  }

  /** The keys in the nodes are the keys in the contents. */
  lemma {:induction false} KeysAgree(t: Tree, par: Node?)
    requires Shape(t, par)
    ensures forall e :: e in Elements(t) ==> e.node.key == e.key
  {
    if t.Br? {
      KeysAgree(t.l, t.e.node);
      KeysAgree(t.r, t.e.node);
    }
  }

  /** A removed element takes its node along, and no other. */
  lemma LostNode(whole: seq<Element>, e: Element, rest: seq<Element>)
    requires Members(rest) == Members(whole) - {e}
    requires forall x :: x in whole && x.node == e.node ==> x == e
    ensures NodesOf(rest) == NodesOf(whole) - {e.node}
  {
    forall n | n in NodesOf(whole) - {e.node} ensures n in NodesOf(rest) {
      var x :| x in whole && x.node == n;
      assert x in Members(whole) && x in Members(rest);
    }
    forall n | n in NodesOf(rest) ensures n in NodesOf(whole) - {e.node} {
      var x :| x in rest && x.node == n;
      assert x in Members(rest) && x in Members(whole);
    }
  }

  // ---- looking things up ----

  lemma KeyMissing(c: Ctx, k: Key)
    requires Sorted(Around(c, [])) && SearchPath(c, k)
    ensures forall e :: e in Around(c, []) ==> e.key != k
  {
    SearchPathSplits(c, [], k);
    AroundIs(c, []);
  }

  /** Index `i` is the first with a key that is not less than `k`. */
  ghost predicate FirstAtLeast(s: seq<Element>, k: Key, i: int) {
    0 <= i < |s| && !Less(s[i].key, k) && Below(s[..i], k)
  }

  lemma FirstAtLeastFound(c: Ctx, t: Tree, k: Key)
    requires t.Br? && t.e.key == k && Sorted(Elements(Fill(c, t)))
    ensures exists i :: FirstAtLeast(Elements(Fill(c, t)), k, i) && Elements(Fill(c, t))[i] == t.e
  {
    SplitAtRoot(c, t);
    var s, n := Elements(Fill(c, t)), |Before(c) + Elements(t.l)|;
    forall e | e in s[..n] ensures Less(e.key, k) {
      var i :| 0 <= i < n && s[i] == e;
      assert Less(s[i].key, s[n].key);
    }
    assert FirstAtLeast(s, k, n);
  }

  lemma FirstAtLeastMissing(c: Ctx, k: Key)
    requires Sorted(Elements(Fill(c, Leaf))) && SearchPath(c, k)
    ensures After(c) == [] ==> Below(Elements(Fill(c, Leaf)), k)
    ensures After(c) != [] ==>
      exists i :: FirstAtLeast(Elements(Fill(c, Leaf)), k, i) && Elements(Fill(c, Leaf))[i] == After(c)[0]
  {
    ElementsOfFill(c, Leaf);
    AroundIs(c, []);
    SearchPathSplits(c, [], k);
    var s := Elements(Fill(c, Leaf));
    assert s == Before(c) + After(c);
    if After(c) != [] {
      assert s[..|Before(c)|] == Before(c);
      assert After(c)[0] in After(c);
      assert FirstAtLeast(s, k, |Before(c)|);
    }
  }

  lemma SameKeySameIndex(s: seq<Element>, i: nat, j: nat)
    requires Sorted(s) && i < |s| && j < |s| && s[i].key == s[j].key
    ensures i == j
  {
    CompareIsATotalOrder(s[i].key, s[j].key, s[i].key);
  }

  /** The position of a node tells what stands before and after it. */
  lemma IndexOfRoot(tree: Tree, c: Ctx, t: Tree, i: nat)
    requires t.Br? && Fill(c, t) == tree && Shape(tree, null) && Sorted(Elements(tree))
    requires i < |Elements(tree)| && Elements(tree)[i].node == t.e.node
    ensures Elements(tree)[i + 1..] == Elements(t.r) + After(c)
  {
    KeysAgree(tree, null);
    var s, a, b := Elements(tree), Before(c) + Elements(t.l), Elements(t.r) + After(c);
    SplitAtRoot(c, t);
    assert s[i] in s && s[|a|] in s;
    SameKeySameIndex(s, i, |a|);
  }

  lemma SplitAtRoot(c: Ctx, t: Tree)
    requires t.Br?
    ensures var s, n := Elements(Fill(c, t)), |Before(c) + Elements(t.l)|;
      n < |s| && s[..n] == Before(c) + Elements(t.l) && s[n] == t.e && s[n + 1..] == Elements(t.r) + After(c)
  {
    ElementsOfFill(c, t);
    AroundIs(c, Elements(t));
    Centre(Before(c), Elements(t.l), t.e, Elements(t.r), After(c));
    CutAt(Before(c) + Elements(t.l), t.e, Elements(t.r) + After(c));
  }

  // ---- height ----

  ghost function Height(t: Tree): nat {
    if t.Leaf? then 0 else 1 + if Height(t.l) > Height(t.r) then Height(t.l) else Height(t.r)
  }

  ghost function Power2(n: nat): nat {
    if n == 0 then 1 else 2 * Power2(n - 1)
  }

  lemma {:induction false} Power2Sum(m: nat, n: nat)
    ensures Power2(m + n) == Power2(m) * Power2(n)
  {
    if m > 0 {
      Power2Sum(m - 1, n);
    }
  }

  lemma {:induction false} Power2Monotone(m: nat, n: nat)
    requires m <= n
    ensures Power2(m) <= Power2(n)
    decreases n
  {
    if m < n {
      Power2Monotone(m, n - 1);
    }
  }

  lemma {:induction false} BlackHeightBounds(t: Tree)
    requires RedBlack(t)
    ensures Height(t) <= 2 * BlackHeight(t) + if Red(t) then 1 else 0
    ensures Power2(BlackHeight(t)) <= |Elements(t)| + 1
  {
    if t.Br? {
      BlackHeightBounds(t.l);
      BlackHeightBounds(t.r);
    }
  }

  /** The height is at most 2 lg(n + 1). */
  lemma HeightBound(t: Tree)
    requires RedBlack(t) && !Red(t)
    ensures Power2(Height(t)) <= (|Elements(t)| + 1) * (|Elements(t)| + 1)
  {
    var b, n := BlackHeight(t), |Elements(t)| + 1;
    BlackHeightBounds(t);
    Power2Monotone(Height(t), b + b);
    Power2Sum(b, b);
    SquareMonotone(Power2(b), n);
  }

  lemma SquareMonotone(a: nat, b: nat)
    requires a <= b
    ensures a * a <= b * b
  {
    assert a * a <= a * b <= b * b;
  }
}
