// rb_insert_color: the repair loop after an insertion.

module RbInsert {
  import opened RbShape
  import opened RbHeap

  // The tree below gparent once uncle and parent are black and gparent is red.
  ghost function Recoloured(g: Tree): Tree
    requires g.N? && g.l.N? && g.r.N?
  {
    N(g.l.(b := true), g.x, false, g.r.(b := true))
  }

  lemma {:induction false} RecolouredNodes(g: Tree)
    requires g.N? && g.l.N? && g.r.N?
    ensures Nodes(Recoloured(g)) == Nodes(g) && Distinct(Recoloured(g)) == Distinct(g)
    ensures Inorder(Recoloured(g)) == Inorder(g)
  {
  }

  // rb_set_black on the roots of two subtrees of p
  method SetBlack(one: Node, other: Node, ghost t: Tree, ghost u: Tree, ghost p: Node)
    requires Rep(t, p) && Rep(u, p) && Distinct(t) && Distinct(u) && Nodes(t) !! Nodes(u)
    requires t.N? && t.x == one && u.N? && u.x == other
    modifies one`black, other`black
    ensures Rep(t.(b := true), p) && Rep(u.(b := true), p)
  {
    hide Inorder, Good, CGood, Pre, Post, CNodes, CRep;
    one.black := true;
    other.black := true;
  }

  lemma RecolouredParts(up: Ctx, g: Tree)
    requires Apart(up, g) && g.N? && g.l.N? && g.r.N?
    ensures Apart(up, Recoloured(g))
    ensures Distinct(g.l) && Distinct(g.r) && Nodes(g.l) !! Nodes(g.r) && g.l.x != g.r.x
    ensures g.x !in Nodes(g.l.(b := true)) && g.x !in Nodes(g.r.(b := true)) && g.x !in {g.l.x, g.r.x}
    ensures g.x !in CNodes(up) && g.l.x !in CNodes(up) && g.r.x !in CNodes(up)
  {
    hide Inorder;
    RecolouredNodes(g);
    assert g.l.x in Nodes(g.l) && g.r.x in Nodes(g.r);
  }

  method Recolour(root: RbRoot, gparent: Node, one: Node, other: Node, ghost up: Ctx, ghost g: Tree)
    requires root.Holds(up, g) && g.N? && g.l.N? && g.r.N? && g.x == gparent
    requires {one, other} == {g.l.x, g.r.x}
    modifies gparent`black, one`black, other`black
    ensures root.Holds(up, Recoloured(g))
  {
    hide Nodes, CNodes, Distinct, CDistinct, CRep;
    RecolouredParts(up, g);
    assert Rep(g.l, gparent) && Rep(g.r, gparent) && allocated(CNodes(up));
    SetBlack(one, other, if one == g.l.x then g.l else g.r, if one == g.l.x then g.r else g.l, gparent);
    assert allocated(Nodes(g.l.(b := true))) && allocated(Nodes(g.r.(b := true)));
    gparent.black := false;
    assert Rep(g.l.(b := true), gparent) && Rep(g.r.(b := true), gparent);
  }

  lemma {:induction false} RecolouredKeeps(c: Ctx, t: Tree, h: int)
    requires RedAtHole(c, t, h) && !c.Top? && !c.b && !c.up.Top? && !IsBlack(c.up.sib)
    ensures var up, g := c.up.up, Recoloured(Above(c.up, Above(c, t)));
      && RedAtHole(up, g, h + 1)
      && Flat(up, g) == Flat(c, t) && All(up, g) == All(c, t)
  {
    var p := Above(c, t);
    var g := Above(c.up, p);
    assert CGood(c.up, h) && c.up.b;
    assert CGood(c.up.up, h + 1);
    assert Good(Recoloured(g).l, h + 1) && Good(Recoloured(g).r, h + 1);
    FlatUp(c, t);
    FlatUp(c.up, p);
    RecolouredNodes(g);
  }

  // The subtree at parent's place once node is its outer child: parent itself,
  // or the result of rotating node above it.
  ghost function OuterL(c: Ctx, t: Tree): Tree
    requires t.N? && !c.Top?
  {
    if c.InL? then Above(c, t) else RotL(Above(c, t))
  }

  // What the last rotation of the left branch leaves at gparent's place.
  ghost function LiftedL(c: Ctx, t: Tree): Tree
    requires t.N? && !c.Top? && !c.up.Top?
  {
    var p := OuterL(c, t);
    N(p.l, p.x, true, N(p.r, c.up.x, false, c.up.sib))
  }

  lemma {:induction false} LiftedLOrder(c: Ctx, t: Tree)
    requires t.N? && !c.Top? && c.up.InL?
    ensures var g := LiftedL(c, t);
      Flat(c.up.up, g) == Flat(c, t) && All(c.up.up, g) == All(c, t)
  {
    var p := OuterL(c, t);
    if c.InR? {
      RotLOrder(Above(c, t));
    }
    assert Inorder(p) == Inorder(Above(c, t)) && Nodes(p) == Nodes(Above(c, t));
    RotROrder(Above(c.up, p));
    var g := RotR(Above(c.up, p));
    var q := LiftedL(c, t);
    assert q.l == g.l && q.x == g.x && Nodes(q.r) == Nodes(g.r) && Inorder(q.r) == Inorder(g.r);
    assert Nodes(q) == Nodes(g);
    FlatUp(c, t);
    FlatUp(c.up, Above(c, t));
    FlatUp(c.up, p);
  }

  lemma {:induction false} LiftedLColours(c: Ctx, t: Tree, h: int)
    requires RedAtHole(c, t, h) && !c.Top? && !c.b && c.up.InL? && IsBlack(c.up.sib)
    ensures var g := LiftedL(c, t);
      RedAtHole(InL(c.up.up, g.x, true, g.r), g.l, h)
  {
    assert CGood(c.up, h) && c.up.b;
    var p := OuterL(c, t);
    assert Good(p.l, h) && Good(p.r, h) && IsBlack(p.r);
    assert Good(LiftedL(c, t).r, h);
  }

  method LiftLeft(root: RbRoot, node: Node, parent: Node, gparent: Node, ghost c: Ctx, ghost t: Tree)
    returns (node': Node)
    requires root.Holds(c, t) && t.N? && t.x == node
    requires !c.Top? && c.x == parent && c.up.InL? && c.up.x == gparent
    modifies root, All(c, t)
    ensures root.Holds(c.up.up, LiftedL(c, t)) && LiftedL(c, t).l.x == node'
  {
    node' := node;
    var parent' := parent;
    ghost var p := Above(c, t);
    root.Up(c, t);
    if parent.right == node {
      p := root.RotateLeftAt(parent, c.up, p);
      parent' := node;
      node' := parent;
    }
    p := root.SetColor(parent', true, c.up, p);
    root.Up(c.up, p);
    ghost var g := root.SetColor(gparent, false, c.up.up, Above(c.up, p));
    g := root.RotateRightAt(gparent, c.up.up, g);
  }

  // The branch of the loop for a parent that is the left child of gparent.
  method FixLeft(root: RbRoot, node: Node, parent: Node, gparent: Node, ghost c: Ctx, ghost t: Tree, ghost h: int)
    returns (node': Node, ghost c': Ctx, ghost t': Tree, ghost h': int)
    requires root.Holds(c, t) && RedAtHole(c, t, h) && t.x == node
    requires !c.Top? && c.x == parent && !c.b && c.up.InL? && c.up.x == gparent
    modifies root, All(c, t)
    ensures root.Holds(c', t') && RedAtHole(c', t', h') && t'.x == node'
    ensures Flat(c', t') == Flat(c, t) && All(c', t') == All(c, t)
    ensures CBlack(c') || Depth(c') < Depth(c)
  {
    hide Inorder, Pre, Post, Distinct, CDistinct, CRep;
    root.Up(c, t);
    root.Up(c.up, Above(c, t));
    root.Peek(c.up.up, Above(c.up, Above(c, t)));
    var uncle := gparent.right;
    if uncle != null && !uncle.black {
      ghost var g := Above(c.up, Above(c, t));
      RecolouredKeeps(c, t, h);
      Recolour(root, gparent, uncle, parent, c.up.up, g);
      return gparent, c.up.up, Recoloured(g), h + 1;
    }
    LiftedLOrder(c, t);
    LiftedLColours(c, t, h);
    ghost var g := LiftedL(c, t);
    c', t', h' := InL(c.up.up, g.x, true, g.r), g.l, h;
    node' := LiftLeft(root, node, parent, gparent, c, t);
    root.DownL(c.up.up, g);
    FlatUp(c', t');
  }

  // The subtree at parent's place once node is its outer child: parent itself,
  // or the result of rotating node above it.
  ghost function OuterR(c: Ctx, t: Tree): Tree
    requires t.N? && !c.Top?
  {
    if c.InR? then Above(c, t) else RotR(Above(c, t))
  }

  // What the last rotation of the right branch leaves at gparent's place.
  ghost function LiftedR(c: Ctx, t: Tree): Tree
    requires t.N? && !c.Top? && !c.up.Top?
  {
    var p := OuterR(c, t);
    N(N(c.up.sib, c.up.x, false, p.l), p.x, true, p.r)
  }

  lemma {:induction false} LiftedROrder(c: Ctx, t: Tree)
    requires t.N? && !c.Top? && c.up.InR?
    ensures var g := LiftedR(c, t);
      Flat(c.up.up, g) == Flat(c, t) && All(c.up.up, g) == All(c, t)
  {
    var p := OuterR(c, t);
    if c.InL? {
      RotROrder(Above(c, t));
    }
    assert Inorder(p) == Inorder(Above(c, t)) && Nodes(p) == Nodes(Above(c, t));
    RotLOrder(Above(c.up, p));
    var g := RotL(Above(c.up, p));
    var q := LiftedR(c, t);
    assert q.r == g.r && q.x == g.x && Nodes(q.l) == Nodes(g.l) && Inorder(q.l) == Inorder(g.l);
    assert Nodes(q) == Nodes(g);
    FlatUp(c, t);
    FlatUp(c.up, Above(c, t));
    FlatUp(c.up, p);
  }

  lemma {:induction false} LiftedRColours(c: Ctx, t: Tree, h: int)
    requires RedAtHole(c, t, h) && !c.Top? && !c.b && c.up.InR? && IsBlack(c.up.sib)
    ensures var g := LiftedR(c, t);
      RedAtHole(InR(c.up.up, g.x, true, g.l), g.r, h)
  {
    assert CGood(c.up, h) && c.up.b;
    var p := OuterR(c, t);
    assert Good(p.r, h) && Good(p.l, h) && IsBlack(p.l);
    assert Good(LiftedR(c, t).l, h);
  }

  method LiftRight(root: RbRoot, node: Node, parent: Node, gparent: Node, ghost c: Ctx, ghost t: Tree)
    returns (node': Node)
    requires root.Holds(c, t) && t.N? && t.x == node
    requires !c.Top? && c.x == parent && c.up.InR? && c.up.x == gparent
    modifies root, All(c, t)
    ensures root.Holds(c.up.up, LiftedR(c, t)) && LiftedR(c, t).r.x == node'
  {
    node' := node;
    var parent' := parent;
    ghost var p := Above(c, t);
    root.Up(c, t);
    if parent.left == node {
      p := root.RotateRightAt(parent, c.up, p);
      parent' := node;
      node' := parent;
    }
    p := root.SetColor(parent', true, c.up, p);
    root.Up(c.up, p);
    ghost var g := root.SetColor(gparent, false, c.up.up, Above(c.up, p));
    g := root.RotateLeftAt(gparent, c.up.up, g);
  }

  // The branch of the loop for a parent that is the right child of gparent.
  method FixRight(root: RbRoot, node: Node, parent: Node, gparent: Node, ghost c: Ctx, ghost t: Tree, ghost h: int)
    returns (node': Node, ghost c': Ctx, ghost t': Tree, ghost h': int)
    requires root.Holds(c, t) && RedAtHole(c, t, h) && t.x == node
    requires !c.Top? && c.x == parent && !c.b && c.up.InR? && c.up.x == gparent
    modifies root, All(c, t)
    ensures root.Holds(c', t') && RedAtHole(c', t', h') && t'.x == node'
    ensures Flat(c', t') == Flat(c, t) && All(c', t') == All(c, t)
    ensures CBlack(c') || Depth(c') < Depth(c)
  {
    hide Inorder, Pre, Post, Distinct, CDistinct, CRep;
    root.Up(c, t);
    root.Up(c.up, Above(c, t));
    root.Peek(c.up.up, Above(c.up, Above(c, t)));
    var uncle := gparent.left;
    if uncle != null && !uncle.black {
      ghost var g := Above(c.up, Above(c, t));
      RecolouredKeeps(c, t, h);
      Recolour(root, gparent, uncle, parent, c.up.up, g);
      return gparent, c.up.up, Recoloured(g), h + 1;
    }
    LiftedROrder(c, t);
    LiftedRColours(c, t, h);
    ghost var g := LiftedR(c, t);
    c', t', h' := InR(c.up.up, g.x, true, g.l), g.r, h;
    node' := LiftRight(root, node, parent, gparent, c, t);
    root.DownR(c.up.up, g);
    FlatUp(c', t');
  }

  // rb_insert_color
  method InsertColor(root: RbRoot, node0: Node, ghost c0: Ctx, ghost t0: Tree, ghost h0: int) returns (ghost s: Tree)
    requires root.Holds(c0, t0) && RedAtHole(c0, t0, h0) && t0.x == node0
    modifies root, All(c0, t0)
    ensures root.Holds(Top, s) && RedBlack(s)
    ensures Inorder(s) == Flat(c0, t0) && Nodes(s) == All(c0, t0)
  {
    var node := node0;
    ghost var c, t, h := c0, t0, h0;
    while node.parent != null && !node.parent.black
      invariant root.Holds(c, t) && RedAtHole(c, t, h) && t.x == node
      invariant Flat(c, t) == Flat(c0, t0) && All(c, t) == All(c0, t0)
      decreases if CBlack(c) then 0 else 1 + Depth(c)
    {
      var parent := node.parent;
      var gparent := parent.parent;
      root.Up(c, t);
      root.Up(c.up, Above(c, t));
      if parent == gparent.left {
        node, c, t, h := FixLeft(root, node, parent, gparent, c, t, h);
      } else {
        node, c, t, h := FixRight(root, node, parent, gparent, c, t, h);
      }
    }
    s := Plug(c, t);
    root.ToTop(c, t);
    if c.Top? {
      assert Good(t.(b := true), h + 1);
    } else {
      GoodPlug(c, t, h);
    }
    s := root.SetColor(root.node, true, Top, s);
  }
}
