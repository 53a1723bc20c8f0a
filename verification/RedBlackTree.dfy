/** The red-black tree of libuv/include/uv-private/tree.h on nodes with parent links. Every
    method carries the tree as a ghost value and proves that memory still holds the value
    that the algorithms of TreeBalance give. */
module RedBlackTree {
  import opened TreeOrder
  import opened TreeShape
  import opened TreeBalance

  /** The root of `t`, if there is one, gets a new parent. */
  method Adopt(child: Node?, parent: Node?, ghost t: Tree, ghost was: Node?)
    requires child == Ptr(t) && Shape(t, was) && Distinct(t)
    modifies Nodes(t)`parent
    ensures Shape(t, parent)
  {
    if child != null {
      child.parent := parent;
    }
  }

  /** The links among `x`, its right child `y` and their subtrees, turned to the left. */
  method TurnLeft(x: Node, y: Node, ghost t: Tree, ghost par: Node?)
    requires t.Br? && t.r.Br? && t.e.node == x && t.r.e.node == y
    requires Shape(t, par) && Distinct(t)
    modifies Nodes(t)`left, Nodes(t)`right, Nodes(t)`parent
    ensures Shape(RotatedLeft(t), par)
  {
    ApartRight(Top, t);
    ghost var a, b, d := t.l, t.r.l, t.r.r;
    assert Shape(t.r, x);
    assert allocated(Nodes(a)) && allocated(Nodes(b)) && allocated(Nodes(d));
    x.right := y.left;
    Adopt(y.left, x, b, y);
    y.parent := x.parent;
    y.left := x;
    x.parent := y;
    assert Shape(RotatedLeft(t).l, y);
  }

  /** The links among `x`, its left child `y` and their subtrees, turned to the right. */
  method TurnRight(x: Node, y: Node, ghost t: Tree, ghost par: Node?)
    requires t.Br? && t.l.Br? && t.e.node == x && t.l.e.node == y
    requires Shape(t, par) && Distinct(t)
    modifies Nodes(t)`left, Nodes(t)`right, Nodes(t)`parent
    ensures Shape(RotatedRight(t), par)
  {
    ApartLeft(Top, t);
    ghost var a, b, d := t.l.l, t.l.r, t.r;
    assert Shape(t.l, x);
    assert allocated(Nodes(a)) && allocated(Nodes(b)) && allocated(Nodes(d));
    x.left := y.right;
    Adopt(y.right, x, b, y);
    y.parent := x.parent;
    y.right := x;
    x.parent := y;
    assert Shape(RotatedRight(t).r, y);
  }

  method SetColour(n: Node, red: bool, ghost t: Tree, ghost par: Node?)
    requires t.Br? && t.e.node == n && Shape(t, par) && Distinct(t)
    modifies n`red
    ensures Shape(Paint(t, red), par)
  {
    assert allocated(Nodes(t));
    n.red := red;
  }

  /** A black node with two red children passes its colour down. */
  method PushBlackness(g: Node, ghost t: Tree, ghost par: Node?)
    requires t.Br? && t.e.node == g && t.l.Br? && t.r.Br? && Shape(t, par) && Distinct(t)
    modifies Nodes(t)`red
    ensures var u := Br(Paint(t.l, false), t.e, true, Paint(t.r, false));
      Shape(u, par) && Distinct(u) && Nodes(u) == Nodes(t)
  {
    assert allocated(Nodes(t.l)) && allocated(Nodes(t.r));
    assert Nodes(t) == Nodes(t.l) + {g} + Nodes(t.r);
    SetColour(g.left, false, t.l, g);
    SetColour(g.right, false, t.r, g);
    g.red := true;
  }

  /** The colours around the rotation at `g`: its child takes over black. */
  method PaintLeft(parent: Node, g: Node, ghost t: Tree, ghost par: Node?)
    requires t.Br? && t.l.Br? && t.e.node == g && t.l.e.node == parent && Shape(t, par) && Distinct(t)
    modifies Nodes(t)`red
    ensures var u := Br(Paint(t.l, false), t.e, true, t.r);
      Shape(u, par) && Distinct(u) && Nodes(u) == Nodes(t)
  {
    assert allocated(Nodes(t.l)) && allocated(Nodes(t.r));
    assert Nodes(t) == Nodes(t.l) + {g} + Nodes(t.r);
    SetColour(parent, false, t.l, g);
    g.red := true;
  }

  method PaintRight(parent: Node, g: Node, ghost t: Tree, ghost par: Node?)
    requires t.Br? && t.r.Br? && t.e.node == g && t.r.e.node == parent && Shape(t, par) && Distinct(t)
    modifies Nodes(t)`red
    ensures var u := Br(t.l, t.e, true, Paint(t.r, false));
      Shape(u, par) && Distinct(u) && Nodes(u) == Nodes(t)
  {
    assert allocated(Nodes(t.l)) && allocated(Nodes(t.r));
    assert Nodes(t) == Nodes(t.l) + {g} + Nodes(t.r);
    SetColour(parent, false, t.r, g);
    g.red := true;
  }

  /** The links and the colour of `out` are copied to `elm`, which adopts the children. */
  method TakeOver(out: Node, elm: Node, ghost t: Tree, ghost par: Node?)
    requires t.Br? && t.e.node == out && t.l.Br? && elm !in Nodes(t) && Shape(t, par) && Distinct(t)
    modifies elm`left, elm`right, elm`parent, elm`red, Nodes(t)`parent
    ensures Shape(t.(e := Element(elm, elm.key)), par) && Distinct(t.(e := Element(elm, elm.key)))
  {
    ghost var l, r := t.l, t.r;
    assert Nodes(t) == Nodes(l) + {out} + Nodes(r);
    assert allocated(Nodes(l)) && allocated(Nodes(r));
    elm.left, elm.right, elm.parent, elm.red := out.left, out.right, out.parent, out.red;
    Adopt(out.left, elm, l, out);
    if out.right != null {
      Adopt(out.right, elm, r, out);
    }
    assert Shape(l, elm) && Shape(r, elm);
  }

  /** The colours before the last rotation at `parent`, whose right child is `w`. */
  method PaintSettleLeft(parent: Node, w: Node, ghost t: Tree, ghost par: Node?)
    requires t.Br? && t.r.Br? && t.e.node == parent && t.r.e.node == w && Shape(t, par) && Distinct(t)
    modifies Nodes(t)`red
    ensures var u := Br(t.l, t.e, false, Br(t.r.l, t.r.e, t.red, Paint(t.r.r, false)));
      Shape(u, par) && Distinct(u) && Nodes(u) == Nodes(t)
  {
    ApartRight(Top, t);
    assert Shape(t.r, parent);
    assert allocated(Nodes(t.l)) && allocated(Nodes(t.r.l)) && allocated(Nodes(t.r.r));
    ghost var u := Br(t.l, t.e, false, Br(t.r.l, t.r.e, t.red, Paint(t.r.r, false)));
    ApartRight(Top, u);
    w.red := parent.red;
    parent.red := false;
    if w.right != null {
      SetColour(w.right, false, t.r.r, w);
    }
    assert Shape(u.r, parent);
  }

  method PaintSettleRight(parent: Node, w: Node, ghost t: Tree, ghost par: Node?)
    requires t.Br? && t.l.Br? && t.e.node == parent && t.l.e.node == w && Shape(t, par) && Distinct(t)
    modifies Nodes(t)`red
    ensures var u := Br(Br(Paint(t.l.l, false), t.l.e, t.red, t.l.r), t.e, false, t.r);
      Shape(u, par) && Distinct(u) && Nodes(u) == Nodes(t)
  {
    ApartLeft(Top, t);
    assert Shape(t.l, parent);
    assert allocated(Nodes(t.r)) && allocated(Nodes(t.l.l)) && allocated(Nodes(t.l.r));
    ghost var u := Br(Br(Paint(t.l.l, false), t.l.e, t.red, t.l.r), t.e, false, t.r);
    ApartLeft(Top, u);
    w.red := parent.red;
    parent.red := false;
    if w.left != null {
      SetColour(w.left, false, t.l.l, w);
    }
    assert Shape(u.l, parent);
  }

  class Head {
    var root: Node?
    ghost var tree: Tree

    ghost predicate Valid()
      reads this, Nodes(tree)
    {
      Zip(Top, tree, root) && RedBlack(tree) && !Red(tree) && Sorted(Elements(tree))
    }

    ghost function Contents(): set<Element>
      reads this
    {
      Members(Elements(tree))
    }

    constructor ()
      ensures Valid() && Contents() == {}
    {
      root, tree := null, Leaf;
    }

    /** The link that led to `x`, in its parent or in the head, now leads to `y`. */
    method Redirect(parent: Node?, x: Node, y: Node?, ghost c: Ctx)
      requires parent == Par(c) && CShape(c, x, root) && CDistinct(c) && x !in CNodes(c)
      modifies this`root, CNodes(c)`left, CNodes(c)`right
      ensures CShape(c, y, root)
    {
      if parent != null {
        if x == parent.left {
          parent.left := y;
        } else {
          parent.right := y;
        }
      } else {
        root := y;
      }
    }

    /** RB_ROTATE_LEFT: `x` goes down to the left, its right child `y` takes its place. */
    method RotateLeft(x: Node, ghost c: Ctx, ghost t: Tree) returns (y: Node)
      requires t.Br? && t.r.Br? && t.e.node == x && Zip(c, t, root)
      modifies this`root, Nodes(t)`left, Nodes(t)`right, Nodes(t)`parent, CNodes(c)`left, CNodes(c)`right
      ensures y == t.r.e.node
      ensures Zip(c, RotatedLeft(t), root)
    {
      assert allocated(CNodes(c)) && allocated(Nodes(t));
      RotatedLeftKeeps(t);
      assert Shape(t.r, x);
      y := x.right;
      TurnLeft(x, y, t, x.parent);
      assert x in Nodes(t);
      Redirect(y.parent, x, y, c);
    }

    /** RB_ROTATE_RIGHT: `x` goes down to the right, its left child `y` takes its place. */
    method RotateRight(x: Node, ghost c: Ctx, ghost t: Tree) returns (y: Node)
      requires t.Br? && t.l.Br? && t.e.node == x && Zip(c, t, root)
      modifies this`root, Nodes(t)`left, Nodes(t)`right, Nodes(t)`parent, CNodes(c)`left, CNodes(c)`right
      ensures y == t.l.e.node
      ensures Zip(c, RotatedRight(t), root)
    {
      assert allocated(CNodes(c)) && allocated(Nodes(t));
      RotatedRightKeeps(t);
      assert Shape(t.l, x);
      y := x.left;
      TurnRight(x, y, t, x.parent);
      assert x in Nodes(t);
      Redirect(y.parent, x, y, c);
    }

    /** RB_SET_BLACKRED(parent, gparent) and RB_ROTATE_RIGHT(gparent). */
    method LiftLeft(parent: Node, g: Node, ghost c: Ctx, ghost t: Tree)
      requires Zip(c, t, root) && t.Br? && t.l.Br? && t.e.node == g && t.l.e.node == parent
      modifies this`root, Nodes(t)`left, Nodes(t)`right, Nodes(t)`parent, Nodes(t)`red
      modifies CNodes(c)`left, CNodes(c)`right
      ensures Zip(In(c, true, t.l.e, false, Br(t.l.r, t.e, true, t.r)), t.l.l, root)
    {
      assert allocated(Nodes(t)) && allocated(CNodes(c));
      PaintLeft(parent, g, t, Par(c));
      ghost var u := Br(Paint(t.l, false), t.e, true, t.r);
      var _ := RotateRight(g, c, u);
      ZipLeft(c, RotatedRight(u), root);
    }

    method LiftRight(parent: Node, g: Node, ghost c: Ctx, ghost t: Tree)
      requires Zip(c, t, root) && t.Br? && t.r.Br? && t.e.node == g && t.r.e.node == parent
      modifies this`root, Nodes(t)`left, Nodes(t)`right, Nodes(t)`parent, Nodes(t)`red
      modifies CNodes(c)`left, CNodes(c)`right
      ensures Zip(In(c, false, t.r.e, false, Br(t.l, t.e, true, t.r.l)), t.r.r, root)
    {
      assert allocated(Nodes(t)) && allocated(CNodes(c));
      PaintRight(parent, g, t, Par(c));
      ghost var u := Br(t.l, t.e, true, Paint(t.r, false));
      var _ := RotateLeft(g, c, u);
      ZipRight(c, RotatedLeft(u), root);
    }

    /** The branch of RB_INSERT_COLOR where `parent` is the left child of `gparent`. */
    method FixLeft(elm: Node, parent: Node, gparent: Node, ghost c: Ctx, ghost t: Tree)
      returns (next: Node, ghost c': Ctx, ghost t': Tree)
      requires Zip(c, t, root) && t.Br? && t.e.node == elm
      requires c.In? && c.up.In? && c.up.onLeft && c.e.node == parent && c.up.e.node == gparent
      requires c.red && !c.up.red && t.red
      modifies this`root, Nodes(t)`left, Nodes(t)`right, Nodes(t)`parent, Nodes(t)`red
      modifies CNodes(c)`left, CNodes(c)`right, CNodes(c)`parent, CNodes(c)`red
      ensures (c', t') == InsertStep(c, t) && Zip(c', t', root) && next == Ptr(t')
    {
      ghost var up, pt := c.up.up, Join(t, c.onLeft, c.e, true, c.other);
      ghost var gt := Br(pt, c.up.e, false, c.up.other);
      ZipUp(c, t, root);
      ZipUp(c.up, pt, root);
      assert allocated(Nodes(gt)) && allocated(CNodes(up)) && allocated(CNodes(c.up)) && allocated(Nodes(pt));
      var tmp := gparent.right;
      if tmp != null && tmp.red {
        PushBlackness(gparent, gt, Par(up));
        c', t' := up, Br(Paint(pt, false), c.up.e, true, Paint(c.up.other, false));
        return gparent, c', t';
      }
      var p := parent;
      if parent.right == elm {
        p := RotateLeft(parent, c.up, pt);
        pt := RotatedLeft(pt);
        ZipUp(c.up, pt, root);
        next := parent;
      } else {
        next := elm;
      }
      LiftLeft(p, gparent, up, Br(pt, c.up.e, false, c.up.other));
      c', t' := In(up, true, pt.e, false, Br(pt.r, c.up.e, true, c.up.other)), pt.l;
    }

    /** The branch of RB_INSERT_COLOR where `parent` is the right child of `gparent`. */
    method FixRight(elm: Node, parent: Node, gparent: Node, ghost c: Ctx, ghost t: Tree)
      returns (next: Node, ghost c': Ctx, ghost t': Tree)
      requires Zip(c, t, root) && t.Br? && t.e.node == elm
      requires c.In? && c.up.In? && !c.up.onLeft && c.e.node == parent && c.up.e.node == gparent
      requires c.red && !c.up.red && t.red
      modifies this`root, Nodes(t)`left, Nodes(t)`right, Nodes(t)`parent, Nodes(t)`red
      modifies CNodes(c)`left, CNodes(c)`right, CNodes(c)`parent, CNodes(c)`red
      ensures (c', t') == InsertStep(c, t) && Zip(c', t', root) && next == Ptr(t')
    {
      ghost var up, pt := c.up.up, Join(t, c.onLeft, c.e, true, c.other);
      ghost var gt := Br(c.up.other, c.up.e, false, pt);
      ZipUp(c, t, root);
      ZipUp(c.up, pt, root);
      assert allocated(Nodes(gt)) && allocated(CNodes(up)) && allocated(CNodes(c.up)) && allocated(Nodes(pt));
      var tmp := gparent.left;
      if tmp != null && tmp.red {
        PushBlackness(gparent, gt, Par(up));
        c', t' := up, Br(Paint(c.up.other, false), c.up.e, true, Paint(pt, false));
        return gparent, c', t';
      }
      var p := parent;
      if parent.left == elm {
        p := RotateRight(parent, c.up, pt);
        pt := RotatedRight(pt);
        ZipUp(c.up, pt, root);
        next := parent;
      } else {
        next := elm;
      }
      LiftRight(p, gparent, up, Br(c.up.other, c.up.e, false, pt));
      c', t' := In(up, false, pt.e, false, Br(c.up.other, c.up.e, true, pt.l)), pt.r;
    }

    method BlackenRoot(ghost c: Ctx, ghost t: Tree) returns (ghost whole: Tree)
      requires Zip(c, t, root) && RedBlack(Fill(c, t)) && Fill(c, t).Br?
      modifies Nodes(t)`red, CNodes(c)`red
      ensures whole == Paint(Fill(c, t), false) && Zip(Top, whole, root)
      ensures RedBlack(whole) && Elements(whole) == Elements(Fill(c, t))
    {
      ZipFill(c, Top, t, root);
      GraftTop(c);
      ZipNodes(c, t);
      ElementsOfFill(c, t);
      ZipNodes(Top, Fill(c, t));
      whole := Paint(Fill(c, t), false);
      SetColour(root, false, Fill(c, t), null);
    }

    /** The loop body of RB_INSERT_COLOR. */
    method InsertTurn(elm: Node, ghost c: Ctx, ghost t: Tree)
      returns (next: Node, ghost c': Ctx, ghost t': Tree)
      requires Zip(c, t, root) && Ptr(t) == elm && RedRedAtMost(c, t) && c.In? && c.red
      modifies this`root, Nodes(t)`left, Nodes(t)`right, Nodes(t)`parent, Nodes(t)`red
      modifies CNodes(c)`left, CNodes(c)`right, CNodes(c)`parent, CNodes(c)`red
      ensures Zip(c', t', root) && Ptr(t') == next && RedRedAtMost(c', t')
      ensures Around(c', Elements(t')) == Around(c, Elements(t)) && Depth(c') < Depth(c)
    {
      InsertStepColours(c, t);
      InsertStepElements(c, t);
      var parent := elm.parent;
      var gparent := parent.parent;
      assert CShape(c.up, parent, root);
      assert c.e.node !in Nodes(c.up.other);
      assert c.up.other.Br? ==> c.up.other.e.node in Nodes(c.up.other);
      if parent == gparent.left {
        next, c', t' := FixLeft(elm, parent, gparent, c, t);
      } else {
        next, c', t' := FixRight(elm, parent, gparent, c, t);
      }
    }

    /** RB_INSERT_COLOR: move the red-red edge up until it disappears, then blacken the root. */
    method InsertColour(start: Node, ghost c0: Ctx, ghost t0: Tree) returns (ghost whole: Tree)
      requires Zip(c0, t0, root) && Ptr(t0) == start && RedRedAtMost(c0, t0)
      modifies this`root, Nodes(t0)`left, Nodes(t0)`right, Nodes(t0)`parent, Nodes(t0)`red
      modifies CNodes(c0)`left, CNodes(c0)`right, CNodes(c0)`parent, CNodes(c0)`red
      ensures Zip(Top, whole, root) && RedBlack(whole) && !Red(whole)
      ensures Elements(whole) == Around(c0, Elements(t0))
    {
      ghost var c, t := c0, t0;
      var elm := start;
      while elm.parent != null && elm.parent.red
        invariant Zip(c, t, root) && Ptr(t) == elm && RedRedAtMost(c, t)
        invariant Around(c, Elements(t)) == Around(c0, Elements(t0))
        decreases Depth(c)
      {
        ZipNodes(c, t);
        ZipNodes(c0, t0);
        elm, c, t := InsertTurn(elm, c, t);
      }
      ZipNodes(c, t);
      ZipNodes(c0, t0);
      InsertDone(c, t);
      ElementsOfFill(c, t);
      whole := BlackenRoot(c, t);
    }

    /** RB_REMOVE_COLOR: the red right sibling `w` is rotated above `parent`. */
    method RaiseRightSibling(parent: Node, w: Node, ghost c: Ctx, ghost t: Tree)
      requires Zip(c, t, root) && c.In? && c.onLeft && c.e.node == parent && Ptr(c.other) == w && !c.red && c.other.red
      modifies this`root, Nodes(t)`left, Nodes(t)`right, Nodes(t)`parent, Nodes(t)`red
      modifies CNodes(c)`left, CNodes(c)`right, CNodes(c)`parent, CNodes(c)`red
      ensures Zip(RaiseSibling(c), t, root)
    {
      ghost var whole := Br(t, c.e, false, c.other);
      ZipUp(c, t, root);
      LiftRight(w, parent, c.up, whole);
      ghost var lower := Br(t, c.e, true, c.other.l);
      ZipUp(In(c.up, false, c.other.e, false, lower), c.other.r, root);
      ZipLeft(c.up, Br(lower, c.other.e, false, c.other.r), root);
      ZipLeft(In(c.up, true, c.other.e, false, c.other.r), lower, root);
    }

    method RaiseLeftSibling(parent: Node, w: Node, ghost c: Ctx, ghost t: Tree)
      requires Zip(c, t, root) && c.In? && !c.onLeft && c.e.node == parent && Ptr(c.other) == w && !c.red && c.other.red
      modifies this`root, Nodes(t)`left, Nodes(t)`right, Nodes(t)`parent, Nodes(t)`red
      modifies CNodes(c)`left, CNodes(c)`right, CNodes(c)`parent, CNodes(c)`red
      ensures Zip(RaiseSibling(c), t, root)
    {
      ghost var whole := Br(c.other, c.e, false, t);
      ZipUp(c, t, root);
      LiftLeft(w, parent, c.up, whole);
      ghost var lower := Br(c.other.r, c.e, true, t);
      ZipUp(In(c.up, true, c.other.e, false, lower), c.other.l, root);
      ZipRight(c.up, Br(c.other.l, c.other.e, false, lower), root);
      ZipRight(In(c.up, false, c.other.e, false, c.other.l), lower, root);
    }

    /** RB_REMOVE_COLOR: the black sibling `w` turns red. */
    method ReddenSibling(w: Node, ghost c: Ctx, ghost t: Tree)
      requires Zip(c, t, root) && c.In? && Ptr(c.other) == w
      modifies CNodes(c)`red
      ensures Zip(c.up, PassUp(c, t), root)
    {
      assert allocated(Nodes(t)) && allocated(CNodes(c.up)) && allocated(Nodes(c.other));
      SetColour(w, true, c.other, c.e.node);
      ghost var c' := c.(other := Paint(c.other, true));
      assert Nodes(c'.other) == Nodes(c.other);
      assert Zip(c', t, root);
      ZipUp(c', t, root);
    }

    /** RB_REMOVE_COLOR: the red left child of the right sibling `w` is rotated above it. */
    method RaiseRightNephew(w: Node, nephew: Node, ghost c: Ctx, ghost t: Tree)
      requires Zip(c, t, root) && c.In? && c.onLeft && Ptr(c.other) == w && Ptr(c.other.l) == nephew
      modifies this`root, Nodes(t)`left, Nodes(t)`right, Nodes(t)`parent, Nodes(t)`red
      modifies CNodes(c)`left, CNodes(c)`right, CNodes(c)`parent, CNodes(c)`red
      ensures Zip(c.(other := RaiseNephew(true, c.other)), t, root)
    {
      ghost var v, s := c.other, In(c.up, false, c.e, c.red, t);
      ZipUp(c, t, root);
      ZipRight(c.up, Br(t, c.e, c.red, v), root);
      LiftLeft(nephew, w, s, v);
      ZipUp(In(s, true, v.l.e, false, Br(v.l.r, v.e, true, v.r)), v.l.l, root);
      ZipUp(s, RaiseNephew(true, v), root);
      ZipLeft(c.up, Br(t, c.e, c.red, RaiseNephew(true, v)), root);
    }

    method RaiseLeftNephew(w: Node, nephew: Node, ghost c: Ctx, ghost t: Tree)
      requires Zip(c, t, root) && c.In? && !c.onLeft && Ptr(c.other) == w && Ptr(c.other.r) == nephew
      modifies this`root, Nodes(t)`left, Nodes(t)`right, Nodes(t)`parent, Nodes(t)`red
      modifies CNodes(c)`left, CNodes(c)`right, CNodes(c)`parent, CNodes(c)`red
      ensures Zip(c.(other := RaiseNephew(false, c.other)), t, root)
    {
      ghost var v, s := c.other, In(c.up, true, c.e, c.red, t);
      ZipUp(c, t, root);
      ZipLeft(c.up, Br(v, c.e, c.red, t), root);
      LiftRight(nephew, w, s, v);
      ZipUp(In(s, false, v.r.e, false, Br(v.l, v.e, true, v.r.l)), v.r.r, root);
      ZipUp(s, RaiseNephew(false, v), root);
      ZipRight(c.up, Br(RaiseNephew(false, v), c.e, c.red, t), root);
    }

    /** RB_REMOVE_COLOR: the final rotation at `parent`. */
    method SettleLeft(parent: Node, w: Node, ghost c: Ctx, ghost t: Tree)
      requires Zip(c, t, root) && c.In? && c.onLeft && c.e.node == parent && Ptr(c.other) == w
      modifies this`root, Nodes(t)`left, Nodes(t)`right, Nodes(t)`parent, Nodes(t)`red
      modifies CNodes(c)`left, CNodes(c)`right, CNodes(c)`parent, CNodes(c)`red
      ensures Zip(c.up, Settle(c, t), root)
    {
      ghost var whole := Br(t, c.e, c.red, c.other);
      ZipUp(c, t, root);
      assert allocated(Nodes(whole)) && allocated(CNodes(c.up));
      PaintSettleLeft(parent, w, whole, Par(c.up));
      whole := Br(t, c.e, false, Br(c.other.l, c.other.e, c.red, Paint(c.other.r, false)));
      var _ := RotateLeft(parent, c.up, whole);
    }

    method SettleRight(parent: Node, w: Node, ghost c: Ctx, ghost t: Tree)
      requires Zip(c, t, root) && c.In? && !c.onLeft && c.e.node == parent && Ptr(c.other) == w
      modifies this`root, Nodes(t)`left, Nodes(t)`right, Nodes(t)`parent, Nodes(t)`red
      modifies CNodes(c)`left, CNodes(c)`right, CNodes(c)`parent, CNodes(c)`red
      ensures Zip(c.up, Settle(c, t), root)
    {
      ghost var whole := Br(c.other, c.e, c.red, t);
      ZipUp(c, t, root);
      assert allocated(Nodes(whole)) && allocated(CNodes(c.up));
      PaintSettleRight(parent, w, whole, Par(c.up));
      whole := Br(Br(Paint(c.other.l, false), c.other.e, c.red, c.other.r), c.e, false, t);
      var _ := RotateRight(parent, c.up, whole);
    }

    /** Make sure that the sibling on the right is black. */
    method BlackSiblingRight(parent: Node, ghost c: Ctx, ghost t: Tree) returns (tmp: Node, ghost c': Ctx)
      requires Zip(c, t, root) && c.In? && c.onLeft && c.e.node == parent && OneBlackShort(c, t)
      modifies this`root, Nodes(t)`left, Nodes(t)`right, Nodes(t)`parent, Nodes(t)`red
      modifies CNodes(c)`left, CNodes(c)`right, CNodes(c)`parent, CNodes(c)`red
      ensures Zip(c', t, root) && OneBlackShort(c', t) && Around(c', Elements(t)) == Around(c, Elements(t))
      ensures c'.In? && c'.onLeft && c'.e.node == parent && Ptr(c'.other) == tmp && !c'.other.red
      ensures c' == c || (c'.red && Depth(c') == Depth(c) + 1)
    {
      c', tmp := c, parent.right;
      assert Shape(c.other, parent);
      if tmp.red {
        RaiseSiblingKeeps(c, t);
        RaiseRightSibling(parent, tmp, c, t);
        c' := RaiseSibling(c);
        tmp := parent.right;
      }
    }

    /** A black sibling with a red child: one or two rotations end the shortage. */
    method EndShortLeft(parent: Node, tmp0: Node, ghost c: Ctx, ghost t: Tree) returns (ghost whole: Tree)
      requires Zip(c, t, root) && c.In? && c.onLeft && c.e.node == parent && Ptr(c.other) == tmp0
      requires OneBlackShort(c, t) && !Red(t) && !c.other.red && (Red(c.other.l) || Red(c.other.r))
      modifies this`root, Nodes(t)`left, Nodes(t)`right, Nodes(t)`parent, Nodes(t)`red
      modifies CNodes(c)`left, CNodes(c)`right, CNodes(c)`parent, CNodes(c)`red
      ensures Zip(Top, whole, root) && RedBlack(whole) && Elements(whole) == Around(c, Elements(t))
    {
      ghost var c' := c;
      var tmp := tmp0;
      ZipNodes(c, t);
      assert Shape(c.other.l, tmp) && Shape(c.other.r, tmp);
      if tmp.right == null || !tmp.right.red {
        RaiseNephewKeeps(c, t);
        RaiseRightNephew(tmp, tmp.left, c, t);
        c' := c.(other := RaiseNephew(c.onLeft, c.other));
        ZipNodes(c', t);
        tmp := parent.right;
      }
      SettleKeeps(c', t);
      SettleLeft(parent, tmp, c', t);
      ghost var u := Settle(c', t);
      ZipFill(c'.up, Top, u, root);
      GraftTop(c'.up);
      ElementsOfFill(c'.up, u);
      whole := Fill(c'.up, u);
    }

    /** The branch of RB_REMOVE_COLOR where the short subtree is the left child of `parent`. */
    method ShortLeft(parent: Node, ghost c: Ctx, ghost t: Tree)
      returns (elm': Node?, parent': Node?, ghost c': Ctx, ghost t': Tree)
      requires Zip(c, t, root) && c.In? && c.onLeft && c.e.node == parent
      requires OneBlackShort(c, t) && !Red(t)
      modifies this`root, Nodes(t)`left, Nodes(t)`right, Nodes(t)`parent, Nodes(t)`red
      modifies CNodes(c)`left, CNodes(c)`right, CNodes(c)`parent, CNodes(c)`red
      ensures Zip(c', t', root) && OneBlackShort(c', t')
      ensures Around(c', Elements(t')) == Around(c, Elements(t))
      ensures elm' == Ptr(t') && parent' == Par(c') && (Red(t') || Depth(c') < Depth(c))
    {
      ZipNodes(c, t);
      var tmp;
      tmp, c' := BlackSiblingRight(parent, c, t);
      ZipNodes(c', t);
      assert Shape(c'.other.l, tmp) && Shape(c'.other.r, tmp);
      if (tmp.left == null || !tmp.left.red) && (tmp.right == null || !tmp.right.red) {
        PassUpKeeps(c', t);
        ReddenSibling(tmp, c', t);
        c', t' := c'.up, PassUp(c', t);
        elm' := parent;
        parent' := elm'.parent;
      } else {
        t' := EndShortLeft(parent, tmp, c', t);
        c', elm', parent' := Top, root, null;
      }
    }

    /** Make sure that the sibling on the left is black. */
    method BlackSiblingLeft(parent: Node, ghost c: Ctx, ghost t: Tree) returns (tmp: Node, ghost c': Ctx)
      requires Zip(c, t, root) && c.In? && !c.onLeft && c.e.node == parent && OneBlackShort(c, t)
      modifies this`root, Nodes(t)`left, Nodes(t)`right, Nodes(t)`parent, Nodes(t)`red
      modifies CNodes(c)`left, CNodes(c)`right, CNodes(c)`parent, CNodes(c)`red
      ensures Zip(c', t, root) && OneBlackShort(c', t) && Around(c', Elements(t)) == Around(c, Elements(t))
      ensures c'.In? && !c'.onLeft && c'.e.node == parent && Ptr(c'.other) == tmp && !c'.other.red
      ensures c' == c || (c'.red && Depth(c') == Depth(c) + 1)
    {
      c', tmp := c, parent.left;
      assert Shape(c.other, parent);
      if tmp.red {
        RaiseSiblingKeeps(c, t);
        RaiseLeftSibling(parent, tmp, c, t);
        c' := RaiseSibling(c);
        tmp := parent.left;
      }
    }

    /** A black sibling with a red child: one or two rotations end the shortage. */
    method EndShortRight(parent: Node, tmp0: Node, ghost c: Ctx, ghost t: Tree) returns (ghost whole: Tree)
      requires Zip(c, t, root) && c.In? && !c.onLeft && c.e.node == parent && Ptr(c.other) == tmp0
      requires OneBlackShort(c, t) && !Red(t) && !c.other.red && (Red(c.other.l) || Red(c.other.r))
      modifies this`root, Nodes(t)`left, Nodes(t)`right, Nodes(t)`parent, Nodes(t)`red
      modifies CNodes(c)`left, CNodes(c)`right, CNodes(c)`parent, CNodes(c)`red
      ensures Zip(Top, whole, root) && RedBlack(whole) && Elements(whole) == Around(c, Elements(t))
    {
      ghost var c' := c;
      var tmp := tmp0;
      ZipNodes(c, t);
      assert Shape(c.other.l, tmp) && Shape(c.other.r, tmp);
      if tmp.left == null || !tmp.left.red {
        RaiseNephewKeeps(c, t);
        RaiseLeftNephew(tmp, tmp.right, c, t);
        c' := c.(other := RaiseNephew(c.onLeft, c.other));
        ZipNodes(c', t);
        tmp := parent.left;
      }
      SettleKeeps(c', t);
      SettleRight(parent, tmp, c', t);
      ghost var u := Settle(c', t);
      ZipFill(c'.up, Top, u, root);
      GraftTop(c'.up);
      ElementsOfFill(c'.up, u);
      whole := Fill(c'.up, u);
    }

    /** The branch of RB_REMOVE_COLOR where the short subtree is the right child of `parent`. */
    method ShortRight(parent: Node, ghost c: Ctx, ghost t: Tree)
      returns (elm': Node?, parent': Node?, ghost c': Ctx, ghost t': Tree)
      requires Zip(c, t, root) && c.In? && !c.onLeft && c.e.node == parent
      requires OneBlackShort(c, t) && !Red(t)
      modifies this`root, Nodes(t)`left, Nodes(t)`right, Nodes(t)`parent, Nodes(t)`red
      modifies CNodes(c)`left, CNodes(c)`right, CNodes(c)`parent, CNodes(c)`red
      ensures Zip(c', t', root) && OneBlackShort(c', t')
      ensures Around(c', Elements(t')) == Around(c, Elements(t))
      ensures elm' == Ptr(t') && parent' == Par(c') && (Red(t') || Depth(c') < Depth(c))
    {
      ZipNodes(c, t);
      var tmp;
      tmp, c' := BlackSiblingLeft(parent, c, t);
      ZipNodes(c', t);
      assert Shape(c'.other.l, tmp) && Shape(c'.other.r, tmp);
      if (tmp.left == null || !tmp.left.red) && (tmp.right == null || !tmp.right.red) {
        PassUpKeeps(c', t);
        ReddenSibling(tmp, c', t);
        c', t' := c'.up, PassUp(c', t);
        elm' := parent;
        parent' := elm'.parent;
      } else {
        t' := EndShortRight(parent, tmp, c', t);
        c', elm', parent' := Top, root, null;
      }
    }

    /** The end of RB_REMOVE_COLOR. */
    method BlackenShort(elm: Node?, ghost c: Ctx, ghost t: Tree) returns (ghost whole: Tree)
      requires Zip(c, t, root) && OneBlackShort(c, t) && elm == Ptr(t) && (Red(t) || elm == root)
      modifies Nodes(t)`red
      ensures Zip(Top, whole, root) && RedBlack(whole) && !Red(whole)
      ensures Elements(whole) == Around(c, Elements(t))
    {
      if c.In? {
        RootOfContext(c, Ptr(t), root);
        assert t.Br? ==> t.e.node in Nodes(t);
      }
      ShortageOver(c, t);
      ghost var t' := Paint(t, false);
      assert allocated(Nodes(t)) && allocated(CNodes(c)) && Nodes(t') == Nodes(t);
      if elm != null {
        SetColour(elm, false, t, Par(c));
      }
      whole := Fill(c, t');
      assert Zip(c, t', root);
      ZipFill(c, Top, t', root);
      GraftTop(c);
    }

    /** RB_REMOVE_COLOR: move the shortage up until a rotation or a red node makes up for it. */
    method RemoveColour(parent0: Node?, elm0: Node?, ghost c: Ctx, ghost t: Tree) returns (ghost whole: Tree)
      requires Zip(c, t, root) && OneBlackShort(c, t) && elm0 == Ptr(t) && parent0 == Par(c)
      modifies this`root, Nodes(t)`left, Nodes(t)`right, Nodes(t)`parent, Nodes(t)`red
      modifies CNodes(c)`left, CNodes(c)`right, CNodes(c)`parent, CNodes(c)`red
      ensures Zip(Top, whole, root) && RedBlack(whole) && !Red(whole)
      ensures Elements(whole) == Around(c, Elements(t))
    {
      var elm, parent := elm0, parent0;
      ghost var c', t' := c, t;
      ZipNodes(c, t);
      while (elm == null || !elm.red) && elm != root
        invariant Zip(c', t', root) && OneBlackShort(c', t')
        invariant Around(c', Elements(t')) == Around(c, Elements(t))
        invariant elm == Ptr(t') && parent == Par(c')
        decreases if Red(t') then 0 else Depth(c') + 1
      {
        ZipNodes(c', t');
        ghost var other := c'.other;
        assert c'.In? && other.Br? && other.e.node in Nodes(other);
        if parent.left == elm {
          elm, parent, c', t' := ShortLeft(parent, c', t');
        } else {
          elm, parent, c', t' := ShortRight(parent, c', t');
        }
      }
      ZipNodes(c', t');
      whole := BlackenShort(elm, c', t');
    }

    /** RB_SET and the new link in RB_INSERT. */
    method Attach(elm: Node, parent: Node?, comp: int, ghost c: Ctx)
      requires Zip(c, Leaf, root) && parent == Par(c) && elm !in CNodes(c)
      requires c.In? ==> (c.onLeft <==> comp < 0)
      modifies this`root, elm`left, elm`right, elm`parent, elm`red, CNodes(c)`left, CNodes(c)`right
      ensures Zip(c, Br(Leaf, Element(elm, elm.key), true, Leaf), root)
    {
      assert allocated(CNodes(c));
      elm.parent := parent;
      elm.left, elm.right := null, null;
      elm.red := true;
      if parent != null {
        if comp < 0 {
          parent.left := elm;
        } else {
          parent.right := elm;
        }
      } else {
        root := elm;
      }
    }

    /** The search loop of RB_INSERT and RB_FIND. */
    method Descend(key: Key) returns (found: Node?, parent: Node?, comp: int, ghost c: Ctx)
      requires Valid()
      ensures found != null ==> found in Nodes(tree) && Element(found, key) in Contents()
      ensures found == null ==>
        && Zip(c, Leaf, root) && Fill(c, Leaf) == tree && SearchPath(c, key)
        && parent == Par(c) && (c.In? ==> (c.onLeft <==> comp < 0))
    {
      found, parent, comp, c := root, null, 0, Top;
      ghost var t := tree;
      while found != null
        invariant Zip(c, t, root) && found == Ptr(t) && parent == Par(c)
        invariant Fill(c, t) == tree && SearchPath(c, key)
        invariant c.In? ==> (c.onLeft <==> comp < 0)
        decreases t
      {
        parent := found;
        comp := Compare(key, parent.key);
        if comp < 0 {
          ZipLeft(c, t, root);
          c, t := In(c, true, t.e, t.red, t.r), t.l;
          found := found.left;
        } else if comp > 0 {
          ZipRight(c, t, root);
          c, t := In(c, false, t.e, t.red, t.l), t.r;
          found := found.right;
        } else {
          FoundElement(c, t);
          CompareIsATotalOrder(key, parent.key, key);
          ElementsOfFill(c, t);
          ZipNodes(c, t);
          NodesOfElements(tree);
          assert found in Nodes(t);
          return;
        }
      }
    }

    /** RB_INSERT: link `elm` in where the search for its key ends, unless the key is there. */
    method Insert(elm: Node) returns (r: Node?)
      requires Valid() && elm !in Nodes(tree)
      modifies this, elm`left, elm`right, elm`parent, elm`red
      modifies Nodes(tree)`left, Nodes(tree)`right, Nodes(tree)`parent, Nodes(tree)`red
      ensures Valid()
      ensures r == null ==> Contents() == old(Contents()) + {Element(elm, elm.key)}
      ensures r == null ==> forall e :: e in old(Contents()) ==> e.key != elm.key
      ensures r != null ==> Element(r, elm.key) in Contents() && tree == old(tree)
    {
      hide Sorted, Elements, Shape, Fill;
      var parent, comp;
      ghost var c;
      assert allocated(Nodes(tree));
      r, parent, comp, c := Descend(elm.key);
      if r != null {
        return;
      }
      ghost var e := Element(elm, elm.key);
      InsertPlan(tree, c, e);
      ZipNodes(c, Leaf);
      ElementsOfFill(c, Leaf);
      NodesOfElements(tree);
      assert CNodes(c) == Nodes(tree);
      Attach(elm, parent, comp, c);
      tree := InsertColour(elm, c, Br(Leaf, e, true, Leaf));
    }

    /** RB_REMOVE: a node with at most one child gives its place to that child. */
    method Unhook(elm: Node, child: Node?, parent: Node?, ghost c: Ctx, ghost t: Tree, ghost ct: Tree)
      requires Zip(c, t, root) && t.Br? && t.e.node == elm && parent == Par(c) && child == Ptr(ct)
      requires (t.l.Leaf? && ct == t.r) || (t.r.Leaf? && ct == t.l)
      modifies this`root, Nodes(ct)`parent, CNodes(c)`left, CNodes(c)`right
      ensures Zip(c, ct, root)
    {
      assert Shape(ct, elm) && Nodes(t) == Nodes(ct) + {elm};
      assert allocated(CNodes(c)) && allocated(Nodes(ct));
      Adopt(child, parent, ct, elm);
      Redirect(parent, elm, child, c);
    }

    /** RB_REMOVE: `elm` takes over the place, the links and the colour of `out`. */
    method Replace(out: Node, elm: Node, ghost c: Ctx, ghost t: Tree)
      requires Zip(c, t, root) && t.Br? && t.e.node == out && t.l.Br?
      requires elm !in Nodes(t) && elm !in CNodes(c)
      modifies this`root, elm`left, elm`right, elm`parent, elm`red
      modifies Nodes(t)`parent, CNodes(c)`left, CNodes(c)`right
      ensures Zip(c, t.(e := Element(elm, elm.key)), root)
    {
      assert allocated(CNodes(c)) && allocated(Nodes(t));
      TakeOver(out, elm, t, Par(c));
      assert out in Nodes(t);
      Redirect(elm.parent, out, elm, c);
      ghost var u := t.(e := Element(elm, elm.key));
      assert Nodes(u) == Nodes(t) - {out} + {elm};
    }

    method MoveSuccessor(out: Node, elm: Node, ghost c: Ctx, ghost t: Tree, ghost s: Ctx, ghost ct: Tree)
      requires t.Br? && t.e.node == out && t.l.Br?
      requires Zip(Graft(s, In(c, false, t.e, t.red, t.l)), ct, root)
      requires elm !in Nodes(ct) && elm !in CNodes(Graft(s, In(c, false, t.e, t.red, t.l)))
      modifies this`root, elm`left, elm`right, elm`parent, elm`red
      modifies Nodes(ct)`parent, CNodes(s)`parent, {out}`parent, Nodes(t.l)`parent, CNodes(c)`left, CNodes(c)`right
      ensures Zip(Graft(s, In(c, false, Element(elm, elm.key), t.red, t.l)), ct, root)
    {
      ghost var base := In(c, false, t.e, t.red, t.l);
      ghost var r := Fill(s, ct);
      ghost var t', e := Br(t.l, t.e, t.red, r), Element(elm, elm.key);
      ZipFill(s, base, ct, root);
      ZipRight(c, t', root);
      GraftLaws(s, base, ct, Elements(ct));
      ElementsOfFill(s, ct);
      ZipNodes(s, ct);
      NodesOfElements(r);
      ZipNodes(Graft(s, base), ct);
      ZipNodes(base, r);
      Replace(out, elm, c, t');
      ZipRight(c, t'.(e := e), root);
      ZipFill(s, base.(e := e), ct, root);
    }

    /** The loop of RB_REMOVE that looks for the leftmost node to the right of `out`. */
    method Successor(out: Node, ghost c: Ctx, ghost t: Tree) returns (elm: Node, ghost s: Ctx, ghost t2: Tree)
      requires Zip(c, t, root) && t.Br? && t.e.node == out && t.r.Br?
      ensures Zip(Graft(s, In(c, false, t.e, t.red, t.l)), t2, root)
      ensures t2.Br? && Ptr(t2) == elm && t2.l.Leaf? && LeftEdge(s) && Fill(s, t2) == t.r
    {
      ghost var base := In(c, false, t.e, t.red, t.l);
      s, t2 := Top, t.r;
      ZipRight(c, t, root);
      elm := out.right;
      while elm.left != null
        invariant t2.Br? && Ptr(t2) == elm && Zip(Graft(s, base), t2, root)
        invariant Fill(s, t2) == t.r && LeftEdge(s)
        decreases t2
      {
        ZipLeft(Graft(s, base), t2, root);
        s, t2 := In(s, true, t2.e, t2.red, t2.r), t2.l;
        elm := elm.left;
      }
    }

    /** RB_REMOVE of a node with two children: its successor is taken out of its own place,
        and then takes the place of the node. */
    method Splice(out: Node, ghost c: Ctx, ghost t: Tree)
      returns (child: Node?, parent: Node?, red: bool, ghost c': Ctx, ghost ct: Tree)
      requires Zip(c, t, root) && t.Br? && t.e.node == out && t.l.Br? && t.r.Br?
      requires RedBlack(Fill(c, t)) && !Red(Fill(c, t))
      modifies this`root, Nodes(t)`left, Nodes(t)`right, Nodes(t)`parent, Nodes(t)`red
      modifies CNodes(c)`left, CNodes(c)`right, CNodes(c)`parent, CNodes(c)`red
      ensures Zip(c', ct, root) && child == Ptr(ct) && parent == Par(c') && Unhooked(c', ct, red)
      ensures Lost(Around(c, Elements(t)), t.e, Around(c', Elements(ct)))
    {
      hide Sorted, Unhooked, Lost;
      var elm;
      ghost var s, t2;
      elm, s, t2 := Successor(out, c, t);
      ghost var base := In(c, false, t.e, t.red, t.l);
      SpliceNodes(c, t, s, t2);
      UnhookColours(Graft(s, base), t2, t2.r);
      LostAtSuccessor(c, t, s, t2);
      RelabelUnhooked(s, base, t2.e, t2.r, t2.red);
      child, parent, red := elm.right, elm.parent, elm.red;
      c', ct := Graft(s, In(c, false, t2.e, t.red, t.l)), t2.r;
      Unhook(elm, child, parent, Graft(s, base), t2, ct);
      if elm.parent == out {
        parent := elm;
      }
      MoveSuccessor(out, elm, c, t, s, ct);
    }

    /** The first part of RB_REMOVE, for a node with at most one child. */
    method SpliceOne(elm: Node, ghost c: Ctx, ghost t: Tree)
      returns (child: Node?, parent: Node?, red: bool, ghost ct: Tree)
      requires Zip(c, t, root) && t.Br? && t.e.node == elm && (t.l.Leaf? || t.r.Leaf?)
      requires RedBlack(Fill(c, t)) && !Red(Fill(c, t))
      modifies this`root, Nodes(t)`parent, CNodes(c)`left, CNodes(c)`right
      ensures Zip(c, ct, root) && child == Ptr(ct) && parent == Par(c) && Unhooked(c, ct, red)
      ensures Lost(Around(c, Elements(t)), t.e, Around(c, Elements(ct)))
      ensures Nodes(ct) <= Nodes(t)
    {
      if elm.left == null {
        child, ct := elm.right, t.r;
      } else {
        child, ct := elm.left, t.l;
      }
      UnhookColours(c, t, ct);
      LostAround(c, Elements(t.l), t.e, Elements(t.r));
      assert Elements(t.l) + Elements(t.r) == Elements(ct);
      parent := elm.parent;
      red := elm.red;
      Unhook(elm, child, parent, c, t, ct);
    }

    /** The last part of RB_REMOVE: rebalance if a black node has left its place. */
    method FinishRemove(parent: Node?, child: Node?, red: bool, ghost c: Ctx, ghost t: Tree)
      requires Zip(c, t, root) && child == Ptr(t) && parent == Par(c) && Unhooked(c, t, red)
      modifies this, Nodes(t)`left, Nodes(t)`right, Nodes(t)`parent, Nodes(t)`red
      modifies CNodes(c)`left, CNodes(c)`right, CNodes(c)`parent, CNodes(c)`red
      ensures Zip(Top, tree, root) && RedBlack(tree) && !Red(tree)
      ensures Elements(tree) == Around(c, Elements(t))
    {
      if !red {
        tree := RemoveColour(parent, child, c, t);
      } else {
        ElementsOfFill(c, t);
        GraftTop(c);
        ZipFill(c, Top, t, root);
        tree := Fill(c, t);
      }
    }

    /** RB_REMOVE. */
    method Remove(elm: Node) returns (r: Node)
      requires Valid() && elm in Nodes(tree)
      modifies this, Nodes(tree)`left, Nodes(tree)`right, Nodes(tree)`parent, Nodes(tree)`red
      ensures Valid() && r == elm
      ensures Element(elm, elm.key) in old(Contents())
      ensures Contents() == old(Contents()) - {Element(elm, elm.key)}
      ensures Nodes(tree) == old(Nodes(tree)) - {elm}
    {
      hide Sorted, Elements;
      ghost var c, t := Locate(Top, tree, elm);
      GraftTop(c);
      ZipFill(c, Top, t, root);
      ElementsOfFill(c, t);
      ZipNodes(c, t);
      NodesOfElements(tree);
      FoundElement(c, t);
      KeysAgree(tree, null);
      ghost var whole, e := Elements(tree), t.e;
      assert e in whole && e == Element(elm, elm.key);
      var child, parent, red;
      ghost var c', ct;
      if elm.left == null || elm.right == null {
        child, parent, red, ct := SpliceOne(elm, c, t);
        c' := c;
      } else {
        child, parent, red, c', ct := Splice(elm, c, t);
      }
      LostNode(whole, e, Around(c', Elements(ct)));
      ZipNodes(c', ct);
      FinishRemove(parent, child, red, c', ct);
      NodesOfElements(tree);
      r := elm;
    }

    /** RB_FIND. */
    method Find(key: Key) returns (r: Node?)
      requires Valid()
      ensures r != null ==> Element(r, key) in Contents()
      ensures r == null ==> forall e :: e in Contents() ==> e.key != key
    {
      var parent, comp;
      ghost var c;
      r, parent, comp, c := Descend(key);
      if r == null {
        ElementsOfFill(c, Leaf);
        KeyMissing(c, key);
      }
    }

    /** RB_NFIND: the first element that is not less than the key. */
    method FindAtLeast(key: Key) returns (r: Node?)
      requires Valid()
      ensures r == null ==> Below(Elements(tree), key)
      ensures r != null ==> exists i :: FirstAtLeast(Elements(tree), key, i) && Elements(tree)[i].node == r
    {
      var tmp := root;
      r := null;
      ghost var c, t := Top, tree;
      while tmp != null
        invariant Zip(c, t, root) && tmp == Ptr(t) && Fill(c, t) == tree && SearchPath(c, key)
        invariant r == (if After(c) == [] then null else After(c)[0].node)
        decreases t
      {
        var comp := Compare(key, tmp.key);
        if comp < 0 {
          r := tmp;
          ZipLeft(c, t, root);
          c, t := In(c, true, t.e, t.red, t.r), t.l;
          tmp := tmp.left;
        } else if comp > 0 {
          ZipRight(c, t, root);
          c, t := In(c, false, t.e, t.red, t.l), t.r;
          tmp := tmp.right;
        } else {
          FirstAtLeastFound(c, t, key);
          return tmp;
        }
      }
      FirstAtLeastMissing(c, key);
    }

    /** RB_MIN. */
    method Min() returns (r: Node?)
      requires Valid()
      ensures r == if Elements(tree) == [] then null else Elements(tree)[0].node
    {
      var tmp := root;
      r := null;
      ghost var c, t := Top, tree;
      while tmp != null
        invariant Zip(c, t, root) && tmp == Ptr(t) && Fill(c, t) == tree && LeftEdge(c)
        invariant r == Par(c) && r == (if After(c) == [] then null else After(c)[0].node)
        decreases t
      {
        r := tmp;
        ZipLeft(c, t, root);
        c, t := In(c, true, t.e, t.red, t.r), t.l;
        tmp := tmp.left;
      }
      ElementsOfFill(c, Leaf);
      LeftEdgeElements(c, []);
    }

    /** The climb in RB_NEXT: up to the first ancestor reached from its left. */
    method Climb(elm: Node, ghost c0: Ctx, ghost t0: Tree) returns (r: Node?)
      requires Zip(c0, t0, root) && Ptr(t0) == elm
      ensures r == if After(c0) == [] then null else After(c0)[0].node
    {
      r := elm;
      ghost var c, t := c0, t0;
      while r.parent != null && r == r.parent.right
        invariant Zip(c, t, root) && r == Ptr(t) && r != null && After(c) == After(c0)
        decreases Depth(c)
      {
        assert Shape(t, Par(c)) && c.In? && (c.other.Br? ==> c.other.e.node in Nodes(c.other));
        assert r in Nodes(t) && !c.onLeft;
        ZipUp(c, t, root);
        r := r.parent;
        c, t := c.up, Join(t, c.onLeft, c.e, c.red, c.other);
      }
      assert Shape(t, Par(c));
      r := r.parent;
    }

    /** RB_NEXT: the element after the `i`-th one. */
    method Next(elm: Node, ghost i: nat) returns (r: Node?)
      requires Valid() && i < |Elements(tree)| && Elements(tree)[i].node == elm
      ensures r == if i + 1 < |Elements(tree)| then Elements(tree)[i + 1].node else null
    {
      ghost var rest := Elements(tree)[i + 1..];
      assert elm in Nodes(tree) by {
        NodesOfElements(tree);
        assert Elements(tree)[i] in Elements(tree);
      }
      ghost var c, t := Locate(Top, tree, elm);
      GraftTop(c);
      ZipFill(c, Top, t, root);
      IndexOfRoot(tree, c, t, i);
      assert rest != [] ==> rest[0] == Elements(tree)[i + 1];
      if elm.right != null {
        ghost var s, t2;
        r, s, t2 := Successor(elm, c, t);
        LeftEdgeElements(s, Elements(t2));
        ElementsOfFill(s, t2);
      } else {
        r := Climb(elm, c, t);
      }
    }

    /** RB_FOREACH. */
    method InOrder() returns (s: seq<Node>)
      requires Valid()
      ensures |s| == |Elements(tree)| && forall i :: 0 <= i < |s| ==> s[i] == Elements(tree)[i].node
    {
      s := [];
      assert allocated(Nodes(tree));
      var x := Min();
      while x != null
        invariant |s| <= |Elements(tree)|
        invariant forall i :: 0 <= i < |s| ==> s[i] == Elements(tree)[i].node
        invariant x == if |s| < |Elements(tree)| then Elements(tree)[|s|].node else null
        decreases |Elements(tree)| - |s|
      {
        s := s + [x];
        assert allocated(Nodes(tree));
        x := Next(x, |s| - 1);
      }
    }
  }
}
