// __rb_erase_color and rb_erase: taking a node out of the tree and repairing
// the black counts.

module RbErase {
  import opened RbShape
  import opened RbHeap

  // ---------- the node is a left child: a red sibling ----------

  // The hole once a red sibling has been rotated above parent.
  ghost function RedSibL(c: Ctx): Ctx
    requires c.InL? && c.sib.N?
  {
    InL(InL(c.up, c.sib.x, true, c.sib.r), c.x, false, c.sib.l)
  }

  lemma {:induction false} RedSibLOrder(c: Ctx, t: Tree)
    requires c.InL? && c.sib.N?
    ensures Flat(RedSibL(c), t) == Flat(c, t) && All(RedSibL(c), t) == All(c, t)
  {
    var d := RedSibL(c);
    assert Pre(d) == Pre(c);
    assert Post(d) == [d.x] + Inorder(d.sib) + ([d.up.x] + Inorder(d.up.sib) + Post(c.up));
    assert Post(d) == Post(c);
    assert CNodes(d) == CNodes(d.up) + {d.x} + Nodes(d.sib);
    assert CNodes(d) == CNodes(c);
  }

  lemma {:induction false} RedSibLColours(c: Ctx, t: Tree, h: int)
    requires Short(c, t, h) && IsBlack(t) && c.InL? && c.sib.N? && !c.sib.b
    ensures Short(RedSibL(c), t, h)
  {
    var d := RedSibL(c);
    assert Good(c.sib.l, h + 1) && Good(c.sib.r, h + 1);
    assert CGood(d.up, h + 1) && CGood(d, h + 1);
  }

  method RotateRedSibL(root: RbRoot, other: Node, parent: Node, ghost c: Ctx, ghost t: Tree)
    requires root.Holds(c, t) && c.InL? && c.x == parent && c.sib.N? && c.sib.x == other
    modifies root, All(c, t)
    ensures root.Holds(RedSibL(c), t)
  {
    ghost var g := Above(c, t);
    root.Up(c, t);
    root.DownR(c.up, g);
    ghost var s := root.SetColor(other, true, InR(c.up, c.x, c.b, t), c.sib);
    root.DownR(c.up, g.(r := s));
    g := root.SetColor(parent, false, c.up, g.(r := s));
    g := root.RotateLeftAt(parent, c.up, g);
    root.DownL(c.up, g);
    root.DownL(InL(c.up, g.x, g.b, g.r), g.l);
  }

  // ---------- the node is a left child: a black sibling with black children ----------

  ghost function BothBlackL(c: Ctx, t: Tree): Tree
    requires c.InL? && c.sib.N?
  {
    N(t, c.x, c.b, c.sib.(b := false))
  }

  lemma {:induction false} BothBlackLKeeps(c: Ctx, t: Tree, h: int)
    requires Short(c, t, h) && IsBlack(t) && c.InL? && c.sib.N?
    requires c.sib.b && IsBlack(c.sib.l) && IsBlack(c.sib.r)
    ensures Short(c.up, BothBlackL(c, t), if c.b then h + 1 else h)
    ensures Flat(c.up, BothBlackL(c, t)) == Flat(c, t) && All(c.up, BothBlackL(c, t)) == All(c, t)
  {
    FlatUp(c, t);
    assert Good(c.sib.(b := false), h);
    var g := BothBlackL(c, t);
    assert Good(N(g.l, g.x, true, g.r), h + 1);
    var a := Above(c, t);
    assert Inorder(c.sib.(b := false)) == Inorder(c.sib) && Nodes(c.sib.(b := false)) == Nodes(c.sib);
    assert g.l == a.l && g.x == a.x && Inorder(g.r) == Inorder(a.r) && Nodes(g.r) == Nodes(a.r);
    assert Inorder(g) == Inorder(a) && Nodes(g) == Nodes(a);
  }

  lemma SiblingIn(c: Ctx, t: Tree)
    requires !c.Top? && c.sib.N?
    ensures c.sib.x in All(c, t)
  {
  }

  method SetSiblingRedL(root: RbRoot, other: Node, ghost c: Ctx, ghost t: Tree)
    requires root.Holds(c, t) && c.InL? && c.sib.N? && c.sib.x == other
    modifies other`black
    ensures root.Holds(c.up, BothBlackL(c, t))
  {
    root.Up(c, t);
    root.DownR(c.up, Above(c, t));
    ghost var s := root.SetColor(other, false, InR(c.up, c.x, c.b, t), c.sib);
    root.Up(InR(c.up, c.x, c.b, t), s);
  }

  // ---------- the node is a left child: a black sibling with a red child ----------

  // The sibling once its outer child is red.
  ghost function OuterSibL(c: Ctx): Tree
    requires !c.Top? && c.sib.N? && (IsBlack(c.sib.r) ==> c.sib.l.N?)
  {
    var s := c.sib;
    if IsBlack(s.r) then N(s.l.l, s.l.x, true, N(s.l.r, s.x, false, s.r)) else s
  }

  ghost function MendedL(c: Ctx, t: Tree): Tree
    requires !c.Top? && c.sib.N? && (IsBlack(c.sib.r) ==> c.sib.l.N?)
  {
    var s := OuterSibL(c);
    N(N(t, c.x, true, s.l), s.x, c.b, s.r.(b := true))
  }

  lemma OuterSibLOrder(c: Ctx)
    requires !c.Top? && c.sib.N? && (IsBlack(c.sib.r) ==> c.sib.l.N?)
    ensures Inorder(OuterSibL(c)) == Inorder(c.sib) && Nodes(OuterSibL(c)) == Nodes(c.sib)
  {
  }

  lemma {:induction false} MendedLOrder(c: Ctx, t: Tree)
    requires c.InL? && c.sib.N? && (IsBlack(c.sib.r) ==> c.sib.l.N?)
    ensures var g := MendedL(c, t);
      Flat(c.up, g) == Flat(c, t) && All(c.up, g) == All(c, t)
  {
    var s := OuterSibL(c);
    OuterSibLOrder(c);
    var u := N(t, c.x, c.b, s);
    RotLOrder(u);
    FlatUp(c, t);
    var g, r := MendedL(c, t), RotL(u);
    assert g.x == r.x && Nodes(g.l) == Nodes(r.l) && Inorder(g.l) == Inorder(r.l);
    assert Nodes(g.r) == Nodes(r.r) && Inorder(g.r) == Inorder(r.r);
    assert Nodes(g) == Nodes(r) && Inorder(g) == Inorder(r);
  }

  lemma {:induction false} MendedLColours(c: Ctx, t: Tree, h: int)
    requires Short(c, t, h) && IsBlack(t) && c.InL? && c.sib.N? && c.sib.b
    requires !IsBlack(c.sib.l) || !IsBlack(c.sib.r)
    ensures RedBlack(Plug(c.up, MendedL(c, t)))
  {
    var s := OuterSibL(c);
    assert Good(c.sib.l, h) && Good(c.sib.r, h);
    assert s.b && Good(s.l, h) && Good(s.r, h) && !IsBlack(s.r);
    assert Good(s.r.(b := true), h + 1);
    var g := MendedL(c, t);
    assert Good(g.l, h + 1);
    GoodPlug(c.up, g, if c.b then h + 2 else h + 1);
  }

  // Rotating the red inner nephew above the sibling.
  method MendInnerL(root: RbRoot, other: Node, ghost d: Ctx, ghost s: Tree)
    requires root.Holds(d, s) && s.N? && s.x == other && s.l.N?
    modifies root, All(d, s)
    ensures root.Holds(d, N(s.l.l, s.l.x, true, N(s.l.r, s.x, false, s.r)))
  {
    ghost var s' := s;
    var o_left := other.left;
    if o_left != null {
      root.DownL(d, s);
      ghost var l := root.SetColor(o_left, true, InL(d, s.x, s.b, s.r), s.l);
      s' := s.(l := l);
      root.DownL(d, s');
    }
    s' := root.SetColor(other, false, d, s');
    s' := root.RotateRightAt(other, d, s');
  }

  // Lifting a sibling with a red outer nephew above parent.
  method MendOuterL(root: RbRoot, other: Node, parent: Node, ghost d: Ctx, ghost s: Tree)
    requires root.Holds(d, s) && d.InR? && d.x == parent && s.N? && s.x == other && s.r.N?
    modifies root, All(d, s)
    ensures root.Holds(d.up, N(N(d.sib, d.x, true, s.l), s.x, d.b, s.r.(b := true)))
  {
    root.Up(d, s);
    ghost var s' := root.SetColor(other, parent.black, d, s);
    root.Up(d, s');
    ghost var g := root.SetColor(parent, true, d.up, Above(d, s'));
    root.DownR(d.up, g);
    ghost var d' := InR(d.up, d.x, true, d.sib);
    if other.right != null {
      root.DownR(d', s');
      ghost var r := root.SetColor(other.right, true, InR(d', s'.x, s'.b, s'.l), s'.r);
      s' := s'.(r := r);
      root.DownR(d', s');
    }
    root.Up(d', s');
    g := root.RotateLeftAt(parent, d.up, Above(d', s'));
  }

  method MendL(root: RbRoot, parent: Node, other: Node, ghost c: Ctx, ghost t: Tree)
    requires root.Holds(c, t) && c.InL? && c.x == parent && c.sib.N? && c.sib.x == other
    requires !IsBlack(c.sib.l) || !IsBlack(c.sib.r)
    modifies root, All(c, t)
    ensures root.Holds(c.up, MendedL(c, t))
  {
    hide Good, CGood, Inorder, Pre, Post, Distinct, CDistinct, Nodes, CNodes, CRep;
    ghost var d := InR(c.up, c.x, c.b, t);
    root.Up(c, t);
    root.DownR(c.up, Above(c, t));
    assert All(d, c.sib) == All(c, t) by { FlatUp(c, t); FlatUp(d, c.sib); }
    root.Peek(d, c.sib);
    ghost var s := OuterSibL(c);
    var other' := other;
    if other.right == null || other.right.black {
      MendInnerL(root, other, d, c.sib);
      OuterSibLOrder(c);
      root.Up(d, s);
      other' := parent.right;
    }
    MendOuterL(root, other', parent, d, s);
  }

  // The branch of the loop for a node that is the left child of parent; done
  // tells that the branch left the loop.
  method EraseLeft(root: RbRoot, node: Node?, parent: Node, ghost c: Ctx, ghost t: Tree, ghost h: int)
    returns (done: bool, node': Node?, parent': Node?, ghost c': Ctx, ghost t': Tree, ghost h': int)
    requires root.Holds(c, t) && Short(c, t, h) && IsBlack(t)
    requires c.InL? && c.x == parent && Root(t) == node
    modifies root, All(c, t)
    ensures root.Holds(c', t') && Flat(c', t') == Flat(c, t) && All(c', t') == All(c, t)
    ensures !done ==> Short(c', t', h') && node' == Root(t') && parent' == Parent(c')
    ensures !done ==> !IsBlack(t') || Depth(c') < Depth(c)
    ensures done ==> RedBlack(Plug(c', t')) && node' == root.node
  {
    hide Good, CGood, Inorder, Pre, Post, Nodes, CNodes, Rep, CRep, Distinct, CDistinct, RedBlack;
    c', t', h', done, node', parent' := c, t, h, false, node, parent;
    SiblingExists(c, t, h);
    root.Up(c, t);
    root.Peek(c.up, Above(c, t));
    var other := parent.right;
    if !other.black {
      RedSibLOrder(c, t);
      RedSibLColours(c, t, h);
      RotateRedSibL(root, other, parent, c, t);
      c' := RedSibL(c);
      root.Up(c', t);
      root.Peek(c'.up, Above(c', t));
      other := parent.right;
    }
    root.DownR(c'.up, Above(c', t));
    root.Peek(InR(c'.up, c'.x, c'.b, t), c'.sib);
    if (other.left == null || other.left.black) && (other.right == null || other.right.black) {
      BothBlackLKeeps(c', t, h);
      SiblingIn(c', t);
      t', h' := BothBlackL(c', t), if c'.b then h + 1 else h;
      SetSiblingRedL(root, other, c', t);
      c' := c'.up;
      node' := parent;
      parent' := node'.parent;
    } else {
      MendedLOrder(c', t);
      MendedLColours(c', t, h);
      MendL(root, parent, other, c', t);
      t', c' := MendedL(c', t), c'.up;
      node' := root.node;
      done := true;
    }
  }

  // ---------- the node is a right child: a red sibling ----------

  // The hole once a red sibling has been rotated above parent.
  ghost function RedSibR(c: Ctx): Ctx
    requires c.InR? && c.sib.N?
  {
    InR(InR(c.up, c.sib.x, true, c.sib.l), c.x, false, c.sib.r)
  }

  lemma {:induction false} RedSibROrder(c: Ctx, t: Tree)
    requires c.InR? && c.sib.N?
    ensures Flat(RedSibR(c), t) == Flat(c, t) && All(RedSibR(c), t) == All(c, t)
  {
    var d := RedSibR(c);
    assert Post(d) == Post(c);
    assert Pre(d) == Pre(c.up) + (Inorder(d.up.sib) + [d.up.x]) + (Inorder(d.sib) + [d.x]);
    assert Pre(d) == Pre(c);
    assert CNodes(d) == CNodes(d.up) + {d.x} + Nodes(d.sib);
    assert CNodes(d) == CNodes(c);
  }

  lemma {:induction false} RedSibRColours(c: Ctx, t: Tree, h: int)
    requires Short(c, t, h) && IsBlack(t) && c.InR? && c.sib.N? && !c.sib.b
    ensures Short(RedSibR(c), t, h)
  {
    var d := RedSibR(c);
    assert Good(c.sib.r, h + 1) && Good(c.sib.l, h + 1);
    assert CGood(d.up, h + 1) && CGood(d, h + 1);
  }

  method RotateRedSibR(root: RbRoot, other: Node, parent: Node, ghost c: Ctx, ghost t: Tree)
    requires root.Holds(c, t) && c.InR? && c.x == parent && c.sib.N? && c.sib.x == other
    modifies root, All(c, t)
    ensures root.Holds(RedSibR(c), t)
  {
    ghost var g := Above(c, t);
    root.Up(c, t);
    root.DownL(c.up, g);
    ghost var s := root.SetColor(other, true, InL(c.up, c.x, c.b, t), c.sib);
    root.DownL(c.up, g.(l := s));
    g := root.SetColor(parent, false, c.up, g.(l := s));
    g := root.RotateRightAt(parent, c.up, g);
    root.DownR(c.up, g);
    root.DownR(InR(c.up, g.x, g.b, g.l), g.r);
  }

  // ---------- the node is a right child: a black sibling with black children ----------

  ghost function BothBlackR(c: Ctx, t: Tree): Tree
    requires c.InR? && c.sib.N?
  {
    N(c.sib.(b := false), c.x, c.b, t)
  }

  lemma {:induction false} BothBlackRKeeps(c: Ctx, t: Tree, h: int)
    requires Short(c, t, h) && IsBlack(t) && c.InR? && c.sib.N?
    requires c.sib.b && IsBlack(c.sib.r) && IsBlack(c.sib.l)
    ensures Short(c.up, BothBlackR(c, t), if c.b then h + 1 else h)
    ensures Flat(c.up, BothBlackR(c, t)) == Flat(c, t) && All(c.up, BothBlackR(c, t)) == All(c, t)
  {
    FlatUp(c, t);
    assert Good(c.sib.(b := false), h);
    var g := BothBlackR(c, t);
    assert Good(N(g.l, g.x, true, g.r), h + 1);
    var a := Above(c, t);
    assert Inorder(c.sib.(b := false)) == Inorder(c.sib) && Nodes(c.sib.(b := false)) == Nodes(c.sib);
    assert g.r == a.r && g.x == a.x && Inorder(g.l) == Inorder(a.l) && Nodes(g.l) == Nodes(a.l);
    assert Inorder(g) == Inorder(a) && Nodes(g) == Nodes(a);
  }

  method SetSiblingRedR(root: RbRoot, other: Node, ghost c: Ctx, ghost t: Tree)
    requires root.Holds(c, t) && c.InR? && c.sib.N? && c.sib.x == other
    modifies other`black
    ensures root.Holds(c.up, BothBlackR(c, t))
  {
    root.Up(c, t);
    root.DownL(c.up, Above(c, t));
    ghost var s := root.SetColor(other, false, InL(c.up, c.x, c.b, t), c.sib);
    root.Up(InL(c.up, c.x, c.b, t), s);
  }

  // ---------- the node is a right child: a black sibling with a red child ----------

  // The sibling once its outer child is red.
  ghost function OuterSibR(c: Ctx): Tree
    requires !c.Top? && c.sib.N? && (IsBlack(c.sib.l) ==> c.sib.r.N?)
  {
    var s := c.sib;
    if IsBlack(s.l) then N(N(s.l, s.x, false, s.r.l), s.r.x, true, s.r.r) else s
  }

  ghost function MendedR(c: Ctx, t: Tree): Tree
    requires !c.Top? && c.sib.N? && (IsBlack(c.sib.l) ==> c.sib.r.N?)
  {
    var s := OuterSibR(c);
    N(s.l.(b := true), s.x, c.b, N(s.r, c.x, true, t))
  }

  lemma OuterSibROrder(c: Ctx)
    requires !c.Top? && c.sib.N? && (IsBlack(c.sib.l) ==> c.sib.r.N?)
    ensures Inorder(OuterSibR(c)) == Inorder(c.sib) && Nodes(OuterSibR(c)) == Nodes(c.sib)
  {
  }

  lemma {:induction false} MendedROrder(c: Ctx, t: Tree)
    requires c.InR? && c.sib.N? && (IsBlack(c.sib.l) ==> c.sib.r.N?)
    ensures var g := MendedR(c, t);
      Flat(c.up, g) == Flat(c, t) && All(c.up, g) == All(c, t)
  {
    var s := OuterSibR(c);
    OuterSibROrder(c);
    var u := N(s, c.x, c.b, t);
    RotROrder(u);
    FlatUp(c, t);
    var g, r := MendedR(c, t), RotR(u);
    assert g.x == r.x && Nodes(g.r) == Nodes(r.r) && Inorder(g.r) == Inorder(r.r);
    assert Nodes(g.l) == Nodes(r.l) && Inorder(g.l) == Inorder(r.l);
    assert Nodes(g) == Nodes(r) && Inorder(g) == Inorder(r);
  }

  lemma {:induction false} MendedRColours(c: Ctx, t: Tree, h: int)
    requires Short(c, t, h) && IsBlack(t) && c.InR? && c.sib.N? && c.sib.b
    requires !IsBlack(c.sib.r) || !IsBlack(c.sib.l)
    ensures RedBlack(Plug(c.up, MendedR(c, t)))
  {
    var s := OuterSibR(c);
    assert Good(c.sib.r, h) && Good(c.sib.l, h);
    assert s.b && Good(s.r, h) && Good(s.l, h) && !IsBlack(s.l);
    assert Good(s.l.(b := true), h + 1);
    var g := MendedR(c, t);
    assert Good(g.r, h + 1);
    GoodPlug(c.up, g, if c.b then h + 2 else h + 1);
  }

  // Rotating the red inner nephew above the sibling.
  method MendInnerR(root: RbRoot, other: Node, ghost d: Ctx, ghost s: Tree)
    requires root.Holds(d, s) && s.N? && s.x == other && s.r.N?
    modifies root, All(d, s)
    ensures root.Holds(d, N(N(s.l, s.x, false, s.r.l), s.r.x, true, s.r.r))
  {
    ghost var s' := s;
    var o_right := other.right;
    if o_right != null {
      root.DownR(d, s);
      ghost var r := root.SetColor(o_right, true, InR(d, s.x, s.b, s.l), s.r);
      s' := s.(r := r);
      root.DownR(d, s');
    }
    s' := root.SetColor(other, false, d, s');
    s' := root.RotateLeftAt(other, d, s');
  }

  // Lifting a sibling with a red outer nephew above parent.
  method MendOuterR(root: RbRoot, other: Node, parent: Node, ghost d: Ctx, ghost s: Tree)
    requires root.Holds(d, s) && d.InL? && d.x == parent && s.N? && s.x == other && s.l.N?
    modifies root, All(d, s)
    ensures root.Holds(d.up, N(s.l.(b := true), s.x, d.b, N(s.r, d.x, true, d.sib)))
  {
    root.Up(d, s);
    ghost var s' := root.SetColor(other, parent.black, d, s);
    root.Up(d, s');
    ghost var g := root.SetColor(parent, true, d.up, Above(d, s'));
    root.DownL(d.up, g);
    ghost var d' := InL(d.up, d.x, true, d.sib);
    if other.left != null {
      root.DownL(d', s');
      ghost var l := root.SetColor(other.left, true, InL(d', s'.x, s'.b, s'.r), s'.l);
      s' := s'.(l := l);
      root.DownL(d', s');
    }
    root.Up(d', s');
    g := root.RotateRightAt(parent, d.up, Above(d', s'));
  }

  method MendR(root: RbRoot, parent: Node, other: Node, ghost c: Ctx, ghost t: Tree)
    requires root.Holds(c, t) && c.InR? && c.x == parent && c.sib.N? && c.sib.x == other
    requires !IsBlack(c.sib.r) || !IsBlack(c.sib.l)
    modifies root, All(c, t)
    ensures root.Holds(c.up, MendedR(c, t))
  {
    hide Good, CGood, Inorder, Pre, Post, Distinct, CDistinct, Nodes, CNodes, CRep;
    ghost var d := InL(c.up, c.x, c.b, t);
    root.Up(c, t);
    root.DownL(c.up, Above(c, t));
    assert All(d, c.sib) == All(c, t) by { FlatUp(c, t); FlatUp(d, c.sib); }
    root.Peek(d, c.sib);
    ghost var s := OuterSibR(c);
    var other' := other;
    if other.left == null || other.left.black {
      MendInnerR(root, other, d, c.sib);
      OuterSibROrder(c);
      root.Up(d, s);
      other' := parent.left;
    }
    MendOuterR(root, other', parent, d, s);
  }

  // The branch of the loop for a node that is the right child of parent; done
  // tells that the branch left the loop.
  method EraseRight(root: RbRoot, node: Node?, parent: Node, ghost c: Ctx, ghost t: Tree, ghost h: int)
    returns (done: bool, node': Node?, parent': Node?, ghost c': Ctx, ghost t': Tree, ghost h': int)
    requires root.Holds(c, t) && Short(c, t, h) && IsBlack(t)
    requires c.InR? && c.x == parent && Root(t) == node
    modifies root, All(c, t)
    ensures root.Holds(c', t') && Flat(c', t') == Flat(c, t) && All(c', t') == All(c, t)
    ensures !done ==> Short(c', t', h') && node' == Root(t') && parent' == Parent(c')
    ensures !done ==> !IsBlack(t') || Depth(c') < Depth(c)
    ensures done ==> RedBlack(Plug(c', t')) && node' == root.node
  {
    hide Good, CGood, Inorder, Pre, Post, Nodes, CNodes, Rep, CRep, Distinct, CDistinct, RedBlack;
    c', t', h', done, node', parent' := c, t, h, false, node, parent;
    SiblingExists(c, t, h);
    root.Up(c, t);
    root.Peek(c.up, Above(c, t));
    var other := parent.left;
    if !other.black {
      RedSibROrder(c, t);
      RedSibRColours(c, t, h);
      RotateRedSibR(root, other, parent, c, t);
      c' := RedSibR(c);
      root.Up(c', t);
      root.Peek(c'.up, Above(c', t));
      other := parent.left;
    }
    root.DownL(c'.up, Above(c', t));
    root.Peek(InL(c'.up, c'.x, c'.b, t), c'.sib);
    if (other.right == null || other.right.black) && (other.left == null || other.left.black) {
      BothBlackRKeeps(c', t, h);
      SiblingIn(c', t);
      t', h' := BothBlackR(c', t), if c'.b then h + 1 else h;
      SetSiblingRedR(root, other, c', t);
      c' := c'.up;
      node' := parent;
      parent' := node'.parent;
    } else {
      MendedROrder(c', t);
      MendedRColours(c', t, h);
      MendR(root, parent, other, c', t);
      t', c' := MendedR(c', t), c'.up;
      node' := root.node;
      done := true;
    }
  }

  // The loop of __rb_erase_color.
  method ClimbShort(root: RbRoot, node0: Node?, parent0: Node?, ghost c0: Ctx, ghost t0: Tree, ghost h0: int)
    returns (done: bool, node: Node?, ghost c: Ctx, ghost t: Tree, ghost h: int)
    requires root.Holds(c0, t0) && Short(c0, t0, h0) && node0 == Root(t0) && parent0 == Parent(c0)
    modifies root, All(c0, t0)
    ensures root.Holds(c, t) && Flat(c, t) == Flat(c0, t0) && All(c, t) == All(c0, t0)
    ensures done ==> RedBlack(Plug(c, t)) && node == root.node
    ensures !done ==> Short(c, t, h) && node == Root(t) && (c.Top? || !IsBlack(t))
  {
    var parent := parent0;
    done, node := false, node0;
    c, t, h := c0, t0, h0;
    root.TopIff(c, t);
    while (node == null || node.black) && node != root.node
      invariant root.Holds(c, t) && Short(c, t, h) && node == Root(t) && parent == Parent(c)
      invariant Flat(c, t) == Flat(c0, t0) && All(c, t) == All(c0, t0)
      invariant node == root.node <==> c.Top?
      decreases if IsBlack(t) then 1 + Depth(c) else 0
    {
      root.Up(c, t);
      root.Peek(c.up, Above(c, t));
      if parent.left == node {
        done, node, parent, c, t, h := EraseLeft(root, node, parent, c, t, h);
      } else {
        done, node, parent, c, t, h := EraseRight(root, node, parent, c, t, h);
      }
      if done {
        break;
      }
      root.TopIff(c, t);
    }
  }

  // __rb_erase_color
  method EraseColor(root: RbRoot, node0: Node?, parent0: Node?, ghost c0: Ctx, ghost t0: Tree, ghost h0: int)
    returns (ghost s: Tree)
    requires root.Holds(c0, t0) && Short(c0, t0, h0) && node0 == Root(t0) && parent0 == Parent(c0)
    modifies root, All(c0, t0)
    ensures root.Holds(Top, s) && RedBlack(s)
    ensures Inorder(s) == Flat(c0, t0) && Nodes(s) == All(c0, t0)
  {
    var done, node;
    ghost var c, t, h;
    done, node, c, t, h := ClimbShort(root, node0, parent0, c0, t0, h0);
    s := Plug(c, t);
    root.ToTop(c, t);
    if node != null {
      if done {
        s := root.SetColor(node, true, Top, s);
      } else {
        GoodPlug(c, Blackened(t), if IsBlack(t) then h else h + 1);
        t := root.SetColor(node, true, c, t);
        s := Plug(c, t);
        root.ToTop(c, t);
      }
    }
  }

  // ---------- taking a node out ----------

  // The tree with t at the hole of c is a red-black tree, and h is the number
  // of black nodes on the paths of t.
  ghost predicate Fits(c: Ctx, t: Tree, h: int) {
    CGood(c, h) && Good(t, h) && (IsBlack(t) || CBlack(c))
  }

  // One step down keeps everything that is known about the whole tree.
  lemma {:induction false} StepL(root: RbRoot, c: Ctx, t: Tree, h: int)
    requires root.Holds(c, t) && Fits(c, t, h) && t.N?
    ensures var c' := InL(c, t.x, t.b, t.r);
      && root.Holds(c', t.l) && Fits(c', t.l, if t.b then h - 1 else h)
      && Flat(c', t.l) == Flat(c, t) && All(c', t.l) == All(c, t)
  {
    root.DownL(c, t);
    FlatDownL(c, t);
  }

  lemma {:induction false} StepR(root: RbRoot, c: Ctx, t: Tree, h: int)
    requires root.Holds(c, t) && Fits(c, t, h) && t.N?
    ensures var c' := InR(c, t.x, t.b, t.l);
      && root.Holds(c', t.r) && Fits(c', t.r, if t.b then h - 1 else h)
      && Flat(c', t.r) == Flat(c, t) && All(c', t.r) == All(c, t)
  {
    root.DownR(c, t);
    FlatDownR(c, t);
  }

  // cc is below base, reached from there by going left only.
  ghost predicate Spine(cc: Ctx, base: Ctx) {
    cc == base || (cc.InL? && Spine(cc.up, base))
  }

  // cc with node y in the place of the node of base.
  ghost function Rebase(cc: Ctx, base: Ctx, y: Node): Ctx
    requires Spine(cc, base) && base.InR?
    decreases cc
  {
    if cc == base then InR(base.up, y, base.b, base.sib)
    else InL(Rebase(cc.up, base, y), cc.x, cc.b, cc.sib)
  }

  // The subtree at base once t is in the hole of cc.
  ghost function Climb(cc: Ctx, base: Ctx, t: Tree): Tree
    requires Spine(cc, base)
    decreases cc
  {
    if cc == base then t else Climb(cc.up, base, Above(cc, t))
  }

  lemma {:induction false} ClimbHolds(root: RbRoot, cc: Ctx, base: Ctx, t: Tree)
    requires Spine(cc, base)
    ensures root.Holds(cc, t) <==> root.Holds(base, Climb(cc, base, t))
    ensures All(base, Climb(cc, base, t)) == All(cc, t)
    decreases cc
  {
    if cc == base {
    } else {
      root.Up(cc, t);
      FlatUp(cc, t);
      ClimbHolds(root, cc.up, base, Above(cc, t));
    }
  }

  lemma {:induction false} RebaseKeeps(cc: Ctx, base: Ctx, y: Node, t: Tree)
    requires Spine(cc, base) && base.InR?
    ensures var cc', base' := Rebase(cc, base, y), InR(base.up, y, base.b, base.sib);
      && Spine(cc', base') && Climb(cc', base', t) == Climb(cc, base, t)
      && Pre(cc') == Pre(base') && Post(cc') == Post(cc)
      && cc'.b == cc.b && (forall h :: CGood(cc, h) ==> CGood(cc', h))
    decreases cc
  {
    if cc == base {
    } else {
      RebaseKeeps(cc.up, base, y, Above(cc, t));
    }
  }

  lemma {:induction false} SpineTop(cc: Ctx, base: Ctx)
    requires Spine(cc, base) && base.InR?
    ensures base.x in CNodes(cc)
    ensures cc != base && CDistinct(cc) ==> cc.x != base.x
    decreases cc
  {
    if cc == base {
    } else {
      SpineTop(cc.up, base);
    }
  }

  lemma {:induction false} RebaseNodes(cc: Ctx, base: Ctx, y: Node)
    requires Spine(cc, base) && base.InR? && CDistinct(cc) && y !in CNodes(cc)
    ensures CNodes(Rebase(cc, base, y)) == CNodes(cc) - {base.x} + {y}
    decreases cc
  {
    if cc == base {
    } else {
      RebaseNodes(cc.up, base, y);
      SpineTop(cc, base);
      SpineTop(cc.up, base);
    }
  }

  lemma {:induction false} PostDownL(c: Ctx, t: Tree)
    requires t.N?
    ensures Inorder(t.l) + Post(InL(c, t.x, t.b, t.r)) == Inorder(t) + Post(c)
  {
  }

  lemma {:induction false} WithoutOld(p: seq<Node>, l: seq<Node>, x: Node, ch: seq<Node>, post: seq<Node>,
                                      r: seq<Node>, post': seq<Node>)
    requires [x] + ch + post == r + post'
    ensures (p + (l + [x])) + ch + post == p + l + r + post'
  {
    assert (p + (l + [x])) + ch + post == p + l + ([x] + ch + post);
    assert p + l + r + post' == p + l + (r + post');
  }

  // The colours after x, whose black count was h, has left the hole to ch.
  ghost predicate Left(c: Ctx, ch: Tree, h: int, black: bool) {
    if black then CGood(c, h) && Good(ch, h - 1) else Fits(c, ch, h)
  }

  // rb_erase from line 282: the leftmost node of the right subtree
  method Successor(root: RbRoot, old_: Node, ghost c: Ctx, ghost t: Tree, ghost h: int)
    returns (node: Node, ghost cc: Ctx, ghost sub: Tree, ghost h': int)
    requires root.Holds(c, t) && Fits(c, t, h) && t.N? && t.x == old_ && t.r.N?
    ensures root.Holds(cc, sub) && Spine(cc, InR(c, old_, t.b, t.l))
    ensures sub.N? && sub.x == node && sub.l.Leaf?
    ensures Fits(cc, sub, h') && All(cc, sub) == All(c, t)
    ensures Inorder(sub) + Post(cc) == Inorder(t.r) + Post(c)
  {
    ghost var base := InR(c, old_, t.b, t.l);
    root.Peek(c, t);
    StepR(root, c, t, h);
    node := old_.right;
    cc, sub := base, t.r;
    h' := if t.b then h - 1 else h;
    while node.left != null
      invariant root.Holds(cc, sub) && Spine(cc, base) && sub.N? && sub.x == node
      invariant Fits(cc, sub, h') && All(cc, sub) == All(c, t)
      invariant Inorder(sub) + Post(cc) == Inorder(t.r) + Post(c)
      decreases sub
    {
      PostDownL(cc, sub);
      root.Peek(cc, sub);
      StepL(root, cc, sub, h');
      h' := if sub.b then h' - 1 else h';
      cc, sub := InL(cc, sub.x, sub.b, sub.r), sub.l;
      node := node.left;
    }
    root.Peek(cc, sub);
  }

  // rb_erase from line 289: the successor leaves its place and takes that of old
  method MoveUp(root: RbRoot, node: Node, old_: Node, ghost c: Ctx, ghost t: Tree, ghost cc: Ctx, ghost sub: Tree)
    requires root.Holds(cc, sub) && t.N? && t.l.N? && t.x == old_ && Spine(cc, InR(c, old_, t.b, t.l))
    requires sub.N? && sub.x == node && sub.l.Leaf?
    modifies root, All(cc, sub)
    ensures var c' := Rebase(cc, InR(c, old_, t.b, t.l), node);
      root.Holds(c', sub.r)
  {
    ghost var base, ch := InR(c, old_, t.b, t.l), sub.r;
    SpineTop(cc, base);
    root.UnlinkMin(node, old_, cc, sub);
    ClimbHolds(root, cc, base, ch);
    ghost var r := Climb(cc, base, ch);
    ghost var u := N(t.l, old_, t.b, r);
    root.Up(base, r);
    FlatUp(base, r);
    assert All(c, u) == All(cc, ch) && node !in All(c, u);
    root.TakePlace(node, old_, c, u);
    ghost var u' := N(t.l, node, t.b, r);
    RebaseKeeps(cc, base, node, ch);
    root.DownR(c, u');
    ClimbHolds(root, Rebase(cc, base, node), InR(c, node, t.b, t.l), ch);
  }

  lemma {:induction false} Replaced(c: Ctx, t: Tree, cc: Ctx, sub: Tree, h: int)
    requires t.N? && Spine(cc, InR(c, t.x, t.b, t.l)) && Apart(cc, sub) && Fits(cc, sub, h)
    requires sub.N? && sub.l.Leaf? && Inorder(sub) + Post(cc) == Inorder(t.r) + Post(c)
    ensures var base := InR(c, t.x, t.b, t.l); var c' := Rebase(cc, base, sub.x);
      && Left(c', sub.r, h, sub.b)
      && Flat(c', sub.r) == Pre(c) + Inorder(t.l) + Inorder(t.r) + Post(c)
      && All(c', sub.r) == All(cc, sub) - {t.x}
      && Parent(c') == (if cc.x == t.x then sub.x else cc.x)
  {
    var base := InR(c, t.x, t.b, t.l);
    SpineTop(cc, base);
    RebaseNodes(cc, base, sub.x);
    RebaseKeeps(cc, base, sub.x, sub.r);
    assert Inorder(sub) == [sub.x] + Inorder(sub.r);
    WithoutOld(Pre(c), Inorder(t.l), sub.x, Inorder(sub.r), Post(cc), Inorder(t.r), Post(c));
    assert t.x !in Nodes(sub.r);
  }

  // rb_erase from line 280: the node has two children, and its successor takes
  // its place
  method ReplaceBySuccessor(root: RbRoot, old_: Node, ghost c: Ctx, ghost t: Tree, ghost h: int)
    returns (child: Node?, parent: Node?, black: bool, ghost c': Ctx, ghost ch: Tree, ghost h': int)
    requires root.Holds(c, t) && Fits(c, t, h) && t.N? && t.x == old_ && t.l.N? && t.r.N?
    modifies root, All(c, t)
    ensures root.Holds(c', ch) && child == Root(ch) && parent == Parent(c')
    ensures Left(c', ch, h', black)
    ensures Flat(c', ch) == Pre(c) + Inorder(t.l) + Inorder(t.r) + Post(c)
    ensures All(c', ch) == All(c, t) - {old_}
  {
    var node;
    ghost var base, cc, sub := InR(c, old_, t.b, t.l), c, t;
    node, cc, sub, h' := Successor(root, old_, c, t, h);
    root.Peek(cc, sub);
    ch := sub.r;
    child := node.right;
    parent := node.parent;
    black := node.black;
    if parent == old_ {
      parent := node;
    }
    SpineTop(cc, base);
    Replaced(c, t, cc, sub, h');
    MoveUp(root, node, old_, c, t, cc, sub);
    c' := Rebase(cc, base, node);
  }

  lemma {:induction false} LeftShort(c: Ctx, ch: Tree, h: int)
    requires Left(c, ch, h, true)
    ensures Short(c, ch, h - 1)
  {
  }

  lemma {:induction false} LeftColours(c: Ctx, t: Tree, h: int, ch: Tree)
    requires Fits(c, t, h) && t.N? && (ch == t.r || ch == t.l)
    ensures Left(c, ch, h, t.b)
  {
    hide Inorder, Nodes;
  }

  lemma {:induction false} LeftOrder(c: Ctx, t: Tree, ch: Tree)
    requires t.N? && ((t.l.Leaf? && ch == t.r) || (t.r.Leaf? && ch == t.l))
    ensures Flat(c, ch) == Pre(c) + Inorder(t.l) + Inorder(t.r) + Post(c)
  {
    hide Pre, Post, Nodes;
    assert t.l.Leaf? ==> Inorder(t.l) == [];
    assert t.r.Leaf? ==> Inorder(t.r) == [];
    WithoutOne(Pre(c), Inorder(t.l), Inorder(t.r), Inorder(ch), Post(c));
  }

  lemma WithoutOne(p: seq<Node>, l: seq<Node>, r: seq<Node>, ch: seq<Node>, q: seq<Node>)
    requires (l == [] && ch == r) || (r == [] && ch == l)
    ensures p + ch + q == p + l + r + q
  {
  }

  lemma {:induction false} LeftNodes(c: Ctx, t: Tree, ch: Tree)
    requires t.N? && Apart(c, t) && ((t.l.Leaf? && ch == t.r) || (t.r.Leaf? && ch == t.l))
    ensures All(c, ch) == All(c, t) - {t.x}
  {
    hide CNodes, Inorder;
    assert Nodes(ch) == Nodes(t) - {t.x};
  }

  // rb_erase for a node with at most one child, up to the colour test
  method RemoveOuter(root: RbRoot, node: Node, ghost c: Ctx, ghost t: Tree, ghost h: int)
    returns (child: Node?, parent: Node?, black: bool, ghost ch: Tree)
    requires root.Holds(c, t) && Fits(c, t, h) && t.N? && t.x == node && (t.l.Leaf? || t.r.Leaf?)
    modifies root, All(c, t)
    ensures root.Holds(c, ch) && child == Root(ch) && parent == Parent(c)
    ensures Left(c, ch, h, black)
    ensures Flat(c, ch) == Pre(c) + Inorder(t.l) + Inorder(t.r) + Post(c)
    ensures All(c, ch) == All(c, t) - {node}
  {
    root.Peek(c, t);
    if node.left == null {
      child, ch := node.right, t.r;
    } else {
      child, ch := node.left, t.l;
    }
    parent := node.parent;
    black := node.black;
    LeftColours(c, t, h, ch);
    LeftOrder(c, t, ch);
    LeftNodes(c, t, ch);
    root.Splice(node, child, c, t, ch);
  }

  // rb_erase
  method Erase(root: RbRoot, node: Node, ghost c: Ctx, ghost t: Tree, ghost h: int) returns (ghost s: Tree)
    requires root.Holds(c, t) && Fits(c, t, h) && t.N? && t.x == node
    modifies root, All(c, t)
    ensures root.Holds(Top, s) && RedBlack(s)
    ensures Inorder(s) == Pre(c) + Inorder(t.l) + Inorder(t.r) + Post(c)
    ensures Nodes(s) == All(c, t) - {node}
  {
    hide Good, CGood, Inorder, Pre, Post, Distinct, CDistinct, CRep;
    var child, parent, black;
    ghost var c', ch, h' := c, t, h;
    root.Peek(c, t);
    if node.left == null || node.right == null {
      child, parent, black, ch := RemoveOuter(root, node, c, t, h);
    } else {
      child, parent, black, c', ch, h' := ReplaceBySuccessor(root, node, c, t, h);
    }
    if black {
      LeftShort(c', ch, h');
      s := EraseColor(root, child, parent, c', ch, h' - 1);
    } else {
      s := Plug(c', ch);
      GoodPlug(c', ch, h');
      root.ToTop(c', ch);
    }
  }
}
