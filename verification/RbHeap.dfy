// The heap behind a red-black tree: parent, child and root pointers agree with
// a shape, and the pointer operations of lib/hi_rbtree.c and include/rbtree.h
// change that shape as intended.

module RbHeap {
  import opened RbShape

  // The nodes of t point to each other as t says; p is the parent of its root.
  ghost predicate Rep(t: Tree, p: Node?)
    reads Nodes(t)
  {
    match t
    case Leaf => true
    case N(l, x, b, r) =>
      x.parent == p && x.black == b && x.left == Root(l) && x.right == Root(r) &&
      Rep(l, x) && Rep(r, x)
  }

  // The nodes of c point to each other as c says; hole is the pointer stored
  // where the hole is and root the pointer stored in struct rb_root.
  ghost predicate CRep(c: Ctx, hole: Node?, root: Node?)
    reads CNodes(c)
  {
    match c
    case Top => root == hole
    case InL(up, x, b, sib) =>
      x.parent == Parent(up) && x.black == b && x.left == hole && x.right == Root(sib) &&
      Rep(sib, x) && CRep(up, x, root)
    case InR(up, x, b, sib) =>
      x.parent == Parent(up) && x.black == b && x.right == hole && x.left == Root(sib) &&
      Rep(sib, x) && CRep(up, x, root)
  }

  // The place a pointer to a node pointer designates: &root->rb_node,
  // &n->rb_left or &n->rb_right.
  datatype Link = AtRoot | LeftOf(n: Node) | RightOf(n: Node)

  ghost function LinkOf(c: Ctx): Link {
    match c
    case Top => AtRoot
    case InL(_, x, _, _) => LeftOf(x)
    case InR(_, x, _, _) => RightOf(x)
  }

  ghost predicate Apart(c: Ctx, t: Tree) {
    Distinct(t) && CDistinct(c) && CNodes(c) !! Nodes(t)
  }

  ghost function RotL(t: Tree): Tree
    requires t.N? && t.r.N?
  {
    N(N(t.l, t.x, t.b, t.r.l), t.r.x, t.r.b, t.r.r)
  }

  ghost function RotR(t: Tree): Tree
    requires t.N? && t.l.N?
  {
    N(t.l.l, t.l.x, t.l.b, N(t.l.r, t.x, t.b, t.r))
  }

  lemma {:induction false} RotLOrder(t: Tree)
    requires t.N? && t.r.N?
    ensures Inorder(RotL(t)) == Inorder(t) && Nodes(RotL(t)) == Nodes(t)
  {
  }

  lemma {:induction false} RotROrder(t: Tree)
    requires t.N? && t.l.N?
    ensures Inorder(RotR(t)) == Inorder(t) && Nodes(RotR(t)) == Nodes(t)
  {
  }

  lemma {:induction false} RotLDistinct(t: Tree)
    requires t.N? && t.r.N? && Distinct(t)
    ensures Distinct(RotL(t)) && Nodes(RotL(t)) == Nodes(t)
  {
  }

  lemma {:induction false} RotRDistinct(t: Tree)
    requires t.N? && t.l.N? && Distinct(t)
    ensures Distinct(RotR(t)) && Nodes(RotR(t)) == Nodes(t)
  {
  }

  lemma {:induction false} RootInCtx(c: Ctx, hole: Node?, root: Node?)
    requires CRep(c, hole, root) && !c.Top?
    ensures root != null && root in CNodes(c)
    decreases c
  {
    if c.up.Top? {
    } else {
      RootInCtx(c.up, c.x, root);
    }
  }

  // The nodes x, y, the root of b and the parent of the hole lie outside of
  // these nodes.
  ghost predicate Clear(nodes: set<Node>, x: Node, y: Node, b: Tree, c: Ctx) {
    x !in nodes && y !in nodes && Root(b) !in nodes && Parent(c) !in nodes
  }

  // A rotation changes four nodes, each in its own part of the tree.
  lemma ClearL(c: Ctx, t: Tree)
    requires Apart(c, t) && t.N? && t.r.N?
    ensures var x, y, b := t.x, t.r.x, t.r.l;
      && Clear(Nodes(t.l), x, y, b, c) && Clear(Nodes(t.r.r), x, y, b, c)
      && (b.N? ==> Clear(Nodes(b.l), x, y, b, c) && Clear(Nodes(b.r), x, y, b, c))
      && (!c.Top? ==> Clear(Nodes(c.sib), x, y, b, c) && Clear(CNodes(c.up), x, y, b, c))
      && x != y && Root(b) !in {x, y} && Parent(c) !in {x, y} && (b.N? ==> Parent(c) != b.x)
      && x in Nodes(t) && y in Nodes(t) && (b.N? ==> b.x in Nodes(t)) && (!c.Top? ==> c.x in CNodes(c))
  {
    hide Inorder;
    assert Distinct(t.r) && Distinct(t.r.l);
  }

  lemma ClearR(c: Ctx, t: Tree)
    requires Apart(c, t) && t.N? && t.l.N?
    ensures var x, y, b := t.x, t.l.x, t.l.r;
      && Clear(Nodes(t.r), x, y, b, c) && Clear(Nodes(t.l.l), x, y, b, c)
      && (b.N? ==> Clear(Nodes(b.l), x, y, b, c) && Clear(Nodes(b.r), x, y, b, c))
      && (!c.Top? ==> Clear(Nodes(c.sib), x, y, b, c) && Clear(CNodes(c.up), x, y, b, c))
      && x != y && Root(b) !in {x, y} && Parent(c) !in {x, y} && (b.N? ==> Parent(c) != b.x)
      && x in Nodes(t) && y in Nodes(t) && (b.N? ==> b.x in Nodes(t)) && (!c.Top? ==> c.x in CNodes(c))
  {
    hide Inorder;
    assert Distinct(t.l) && Distinct(t.l.r);
  }

  // So does replacing the root of t by a node x from elsewhere.
  lemma ClearTaken(x: Node, c: Ctx, t: Tree)
    requires Apart(c, t) && t.N? && t.l.N? && x !in CNodes(c) + Nodes(t)
    ensures var l, r := t.l, t.r;
      && Clear(Nodes(l.l), x, l.x, r, c) && Clear(Nodes(l.r), x, l.x, r, c)
      && (r.N? ==> Clear(Nodes(r.l), x, l.x, r, c) && Clear(Nodes(r.r), x, l.x, r, c))
      && (!c.Top? ==> Clear(Nodes(c.sib), x, l.x, r, c) && Clear(CNodes(c.up), x, l.x, r, c))
      && t.x != x && l.x !in {t.x, x} && Root(r) !in {t.x, x, l.x}
      && Parent(c) !in {t.x, x, l.x} && (r.N? ==> Parent(c) != r.x)
      && l.x in Nodes(t) && (r.N? ==> r.x in Nodes(t)) && (!c.Top? ==> c.x in CNodes(c) && Root(c.sib) != t.x)
    ensures Apart(c, N(t.l, x, t.b, t.r))
  {
    hide Inorder;
    assert Distinct(t.l) && Distinct(t.r);
  }

  // The parent of the hole is a node of its own.
  lemma ClearUp(c: Ctx)
    requires CDistinct(c) && !c.Top?
    ensures c.x in CNodes(c) && c.x !in Nodes(c.sib) && c.x !in CNodes(c.up)
    ensures forall n :: n !in CNodes(c) ==> n !in Nodes(c.sib) && n !in CNodes(c.up)
  {
    hide Inorder;
  }

  class RbRoot {
    var node: Node?

    constructor ()
      ensures Holds(Top, Leaf)
    {
      node := null;
    }

    ghost predicate Holds(c: Ctx, t: Tree)
      reads this, CNodes(c), Nodes(t)
    {
      Apart(c, t) && Rep(t, Parent(c)) && CRep(c, Root(t), node)
    }

    // __rb_rotate_left
    method RotateLeft(x: Node)
      requires x.right != null && x.right != x && (x.parent != null ==> x.parent !in {x, x.right, x.right.left})
      requires x.right.left !in {x, x.right}
      modifies this`node, x`right, x`parent, x.right`left, x.right`parent
      modifies if x.right.left != null then {x.right.left} else {}
      modifies if x.parent != null then {x.parent} else {}
      ensures var y := old(x.right); var b := old(y.left); var p := old(x.parent);
        && x.right == b && x.parent == y && y.left == x && y.parent == p
        && (b != null ==> b.parent == x && b.left == old(b.left) && b.right == old(b.right) && b.black == old(b.black))
        && (p != null ==> p.parent == old(p.parent) && p.black == old(p.black) && node == old(node)
                          && p.left == (if old(p.left) == x then y else old(p.left))
                          && p.right == (if old(p.left) == x then old(p.right) else y))
        && (p == null ==> node == y)
    {
      var right := x.right;
      var parent := x.parent;
      x.right := right.left;
      if right.left != null {
        right.left.parent := x;
      }
      right.left := x;
      right.parent := parent;
      if parent != null {
        if x == parent.left {
          parent.left := right;
        } else {
          parent.right := right;
        }
      } else {
        node := right;
      }
      x.parent := right;
    }

    method RotateLeftAt(x: Node, ghost c: Ctx, ghost t: Tree) returns (ghost t': Tree)
      requires Holds(c, t) && t.N? && t.x == x && t.r.N?
      modifies this, CNodes(c), Nodes(t)
      ensures t' == RotL(t)
      ensures Holds(c, t')
    {
      hide Distinct, CDistinct, Nodes, CNodes;
      ghost var a, b, d := t.l, t.r.l, t.r.r;
      t' := RotL(t);
      ClearL(c, t);
      RotLDistinct(t);
      assert Rep(t.r, x) && Rep(b, t.r.x);
      assert allocated(Nodes(a)) && allocated(Nodes(d));
      assert b.N? ==> allocated(Nodes(b.l)) && allocated(Nodes(b.r));
      assert !c.Top? ==> allocated(Nodes(c.sib)) && allocated(CNodes(c.up));
      RotateLeft(x);
      assert Rep(b, x);
      assert Rep(t', Parent(c));
      assert !c.Top? ==> Rep(c.sib, c.x) && CRep(c.up, c.x, old(node));
      assert CRep(c, Root(t'), node);
    }

    // __rb_rotate_right
    method RotateRight(x: Node)
      requires x.left != null && x.left != x && (x.parent != null ==> x.parent !in {x, x.left, x.left.right})
      requires x.left.right !in {x, x.left}
      modifies this`node, x`left, x`parent, x.left`right, x.left`parent
      modifies if x.left.right != null then {x.left.right} else {}
      modifies if x.parent != null then {x.parent} else {}
      ensures var y := old(x.left); var b := old(y.right); var p := old(x.parent);
        && x.left == b && x.parent == y && y.right == x && y.parent == p
        && (b != null ==> b.parent == x && b.right == old(b.right) && b.left == old(b.left) && b.black == old(b.black))
        && (p != null ==> p.parent == old(p.parent) && p.black == old(p.black) && node == old(node)
                          && p.right == (if old(p.right) == x then y else old(p.right))
                          && p.left == (if old(p.right) == x then old(p.left) else y))
        && (p == null ==> node == y)
    {
      var left := x.left;
      var parent := x.parent;
      x.left := left.right;
      if left.right != null {
        left.right.parent := x;
      }
      left.right := x;
      left.parent := parent;
      if parent != null {
        if x == parent.right {
          parent.right := left;
        } else {
          parent.left := left;
        }
      } else {
        node := left;
      }
      x.parent := left;
    }

    method RotateRightAt(x: Node, ghost c: Ctx, ghost t: Tree) returns (ghost t': Tree)
      requires Holds(c, t) && t.N? && t.x == x && t.l.N?
      modifies this, CNodes(c), Nodes(t)
      ensures t' == RotR(t)
      ensures Holds(c, t')
    {
      hide Distinct, CDistinct, Nodes, CNodes;
      ghost var a, b, d := t.r, t.l.r, t.l.l;
      t' := RotR(t);
      ClearR(c, t);
      RotRDistinct(t);
      assert Rep(t.l, x) && Rep(b, t.l.x);
      assert allocated(Nodes(a)) && allocated(Nodes(d));
      assert b.N? ==> allocated(Nodes(b.l)) && allocated(Nodes(b.r));
      assert !c.Top? ==> allocated(Nodes(c.sib)) && allocated(CNodes(c.up));
      RotateRight(x);
      assert Rep(b, x);
      assert Rep(t', Parent(c));
      assert !c.Top? ==> Rep(c.sib, c.x) && CRep(c.up, c.x, old(node));
      assert CRep(c, Root(t'), node);
    }

    // rb_set_red, rb_set_black and rb_set_color
    method SetColor(x: Node, black: bool, ghost c: Ctx, ghost t: Tree) returns (ghost t': Tree)
      requires Holds(c, t) && t.N? && t.x == x
      modifies x`black
      ensures t' == t.(b := black)
      ensures Holds(c, t')
    {
      t' := t.(b := black);
      x.black := black;
    }

    // Moving the focus between a subtree and the node above it.
    lemma {:induction false} DownL(c: Ctx, t: Tree)
      requires t.N?
      ensures Holds(c, t) <==> Holds(InL(c, t.x, t.b, t.r), t.l)
    {
    }

    lemma {:induction false} DownR(c: Ctx, t: Tree)
      requires t.N?
      ensures Holds(c, t) <==> Holds(InR(c, t.x, t.b, t.l), t.r)
    {
    }

    lemma {:induction false} Up(c: Ctx, t: Tree)
      requires !c.Top?
      ensures Holds(c, t) <==> Holds(c.up, Above(c, t))
    {
    }

    // What the pointers and colours two levels below the hole look like.
    lemma {:induction false} Peek(c: Ctx, t: Tree)
      requires Holds(c, t) && t.N?
      ensures t.x.left == Root(t.l) && t.x.right == Root(t.r) && t.x.black == t.b && t.x.parent == Parent(c)
      ensures t.l.N? ==> t.l.x.black == t.l.b
      ensures t.r.N? ==> t.r.x.black == t.r.b
    {
      assert Rep(t.l, t.x) && Rep(t.r, t.x);
    }

    // The hole is the whole tree exactly when its pointer is the root pointer.
    lemma {:induction false} TopIff(c: Ctx, t: Tree)
      requires Holds(c, t)
      ensures Root(t) == node <==> c.Top?
    {
      if !c.Top? {
        RootInCtx(c, Root(t), node);
      }
    }

    lemma {:induction false} ToTop(c: Ctx, t: Tree)
      requires Holds(c, t)
      ensures Holds(Top, Plug(c, t))
      ensures Inorder(Plug(c, t)) == Flat(c, t) && Nodes(Plug(c, t)) == All(c, t)
      decreases c
    {
      hide Holds, Inorder, Nodes;
      if c.Top? {
      } else {
        Up(c, t);
        FlatUp(c, t);
        ToTop(c.up, Above(c, t));
      }
    }

    // rb_link_node at the empty place below parent (or at the root)
    method LinkNode(x: Node, parent: Node?, link: Link, ghost c: Ctx) returns (ghost t: Tree)
      requires Holds(c, Leaf) && x !in CNodes(c)
      requires parent == Parent(c) && link == LinkOf(c)
      modifies this, x, CNodes(c)
      ensures t == N(Leaf, x, false, Leaf)
      ensures Holds(c, t)
    {
      hide CDistinct, CNodes;
      t := N(Leaf, x, false, Leaf);
      if !c.Top? {
        ClearUp(c);
        assert allocated(Nodes(c.sib)) && allocated(CNodes(c.up));
      }
      x.parent, x.black := parent, false;
      x.left, x.right := null, null;
      match link {
        case AtRoot => node := x;
        case LeftOf(n) => n.left := x;
        case RightOf(n) => n.right := x;
      }
      assert !c.Top? ==> Rep(c.sib, c.x) && CRep(c.up, c.x, old(node));
      assert CRep(c, x, node);
      assert Nodes(t) == {x} && Distinct(t);
      assert Apart(c, t) && Rep(t, Parent(c));
    }

    // rb_erase from line 316: child takes the place of x below its parent
    method SpliceLinks(x: Node, child: Node?)
      requires child != x && (x.parent != null ==> x.parent !in {x, child})
      modifies this`node, if child != null then {child} else {}, if x.parent != null then {x.parent} else {}
      ensures child != null ==>
        child.parent == x.parent && child.black == old(child.black)
        && child.left == old(child.left) && child.right == old(child.right)
      ensures var p := x.parent;
        && p == old(x.parent)
        && (p != null ==> p.parent == old(p.parent) && p.black == old(p.black) && node == old(node)
                          && p.left == (if old(p.left) == x then child else old(p.left))
                          && p.right == (if old(p.left) == x then old(p.right) else child))
        && (p == null ==> node == child)
    {
      var parent := x.parent;
      if child != null {
        child.parent := parent;
      }
      if parent != null {
        if parent.left == x {
          parent.left := child;
        } else {
          parent.right := child;
        }
      } else {
        node := child;
      }
    }

    // rb_erase from line 289: the leftmost node x below old.right hands its
    // place to its right child
    method UnlinkLinks(x: Node, old_: Node)
      requires x.parent != null && x.parent !in {x, x.right} && x.right != x
      requires if x.parent == old_ then old_.right == x && old_.left != x else x.parent.left == x
      modifies if x.right != null then {x.right} else {}, x.parent
      ensures var child := x.right; var p := x.parent;
        && p == old(x.parent) && child == old(x.right)
        && (child != null ==>
             child.parent == p && child.black == old(child.black)
             && child.left == old(child.left) && child.right == old(child.right))
        && p.parent == old(p.parent) && p.black == old(p.black)
        && p.left == (if old(p.left) == x then child else old(p.left))
        && p.right == (if old(p.left) == x then old(p.right) else child)
    {
      var child := x.right;
      var parent := x.parent;
      if child != null {
        child.parent := parent;
      }
      if parent == old_ {
        parent.right := child;
      } else {
        parent.left := child;
      }
    }

    method Splice(x: Node, child: Node?, ghost c: Ctx, ghost t: Tree, ghost ch: Tree)
      requires Holds(c, t) && t.N? && t.x == x && child == Root(ch)
      requires (t.l.Leaf? && ch == t.r) || (t.r.Leaf? && ch == t.l)
      modifies this, All(c, t)
      ensures Holds(c, ch)
    {
      Peek(c, t);
      assert Rep(ch, x) && Distinct(ch) && Nodes(ch) <= Nodes(t);
      assert ch.N? ==> ch.x in Nodes(ch) && ch.x in Nodes(t);
      assert !c.Top? ==> c.x in CNodes(c);
      assert allocated(Nodes(t)) && allocated(CNodes(c)) && allocated(Nodes(ch));
      SpliceLinks(x, child);
      assert Rep(ch, Parent(c));
    }

    method UnlinkMin(x: Node, old_: Node, ghost c: Ctx, ghost t: Tree)
      requires Holds(c, t) && t.N? && t.x == x && t.l.Leaf?
      requires !c.Top? && (if c.x == old_ then c.InR? else c.InL?)
      modifies All(c, t)
      ensures Holds(c, t.r) && x.right == Root(t.r) && x.parent == c.x
    {
      Peek(c, t);
      assert Rep(t.r, x) && Distinct(t.r) && Nodes(t.r) <= Nodes(t);
      assert t.r.N? ==> t.r.x in Nodes(t.r) && t.r.x in Nodes(t);
      assert c.x in CNodes(c);
      assert allocated(Nodes(t)) && allocated(CNodes(c)) && allocated(Nodes(t.r));
      UnlinkLinks(x, old_);
      assert Rep(t.r, Parent(c));
    }

    method TakePlace(x: Node, old_: Node, ghost c: Ctx, ghost t: Tree)
      requires Holds(c, t) && t.N? && t.x == old_ && t.l.N? && x !in All(c, t)
      modifies this, x, All(c, t)
      ensures Holds(c, N(t.l, x, t.b, t.r))
    {
      hide Distinct, CDistinct, Nodes, CNodes;
      Peek(c, t);
      ghost var l, r := t.l, t.r;
      assert Rep(l, old_) && Rep(r, old_);
      ClearTaken(x, c, t);
      assert allocated(Nodes(l.l)) && allocated(Nodes(l.r));
      assert r.N? ==> allocated(Nodes(r.l)) && allocated(Nodes(r.r));
      assert !c.Top? ==> allocated(Nodes(c.sib)) && allocated(CNodes(c.up));
      TakeLinks(x, old_);
      assert Rep(l, x) && Rep(r, x);
      assert !c.Top? ==> Rep(c.sib, c.x) && CRep(c.up, c.x, old(node));
      assert CRep(c, x, node);
    }

    // rb_erase from line 297: x takes over the colour and all links of old
    method TakeLinks(x: Node, old_: Node)
      requires old_.left != null && x != old_
      requires old_.left !in {old_, x, old_.right, old_.parent} && x !in {old_.parent, old_.right}
      requires old_.right !in {old_} && (old_.parent != null ==> old_.parent !in {old_, old_.right})
      modifies this`node, x, old_.left`parent
      modifies if old_.right != null then {old_.right} else {}
      modifies if old_.parent != null then {old_.parent} else {}
      ensures var l := old(old_.left); var r := old(old_.right); var p := old(old_.parent);
        && x.left == l && x.right == r && x.parent == p && x.black == old(old_.black)
        && l.parent == x
        && (r != null ==> r.parent == x && r.left == old(r.left) && r.right == old(r.right) && r.black == old(r.black))
        && (p != null ==> p.parent == old(p.parent) && p.black == old(p.black) && node == old(node)
                          && p.left == (if old(p.left) == old_ then x else old(p.left))
                          && p.right == (if old(p.left) == old_ then old(p.right) else x))
        && (p == null ==> node == x)
    {
      x.parent, x.black := old_.parent, old_.black;
      x.right := old_.right;
      x.left := old_.left;
      if old_.parent != null {
        if old_.parent.left == old_ {
          old_.parent.left := x;
        } else {
          old_.parent.right := x;
        }
      } else {
        node := x;
      }
      old_.left.parent := x;
      if old_.right != null {
        old_.right.parent := x;
      }
    }
  }
}
