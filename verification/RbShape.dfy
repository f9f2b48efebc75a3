// Red-black trees as values: the shape of a tree whose nodes are heap objects,
// and the context around a subtree.  Everything the colours and the order of
// the nodes imply is stated and proved here, without the heap.

module RbShape {
  import opened Keys

  // struct lhi_rb_entry together with its struct rb_node; the packed
  // rb_parent_color word is two fields.
  class Node {
    const key: Key
    const data: Data
    var left: Node?
    var right: Node?
    var parent: Node?
    var black: bool

    constructor (key: Key, data: Data)
      ensures this.key == key && this.data == data
    {
      this.key, this.data := key, data;
      left, right, parent, black := null, null, null, false;
    }
  }

  datatype Tree = Leaf | N(l: Tree, x: Node, b: bool, r: Tree)

  // The way from a hole up to the root: the hole is the left (InL) or the
  // right (InR) child of x, whose colour is b and whose other child is sib.
  datatype Ctx =
    | Top
    | InL(up: Ctx, x: Node, b: bool, sib: Tree)
    | InR(up: Ctx, x: Node, b: bool, sib: Tree)

  ghost function Root(t: Tree): Node? {
    if t.Leaf? then null else t.x
  }

  ghost function Parent(c: Ctx): Node? {
    if c.Top? then null else c.x
  }

  ghost function Nodes(t: Tree): set<Node> {
    match t
    case Leaf => {}
    case N(l, x, _, r) => Nodes(l) + {x} + Nodes(r)
  }

  ghost function CNodes(c: Ctx): set<Node> {
    if c.Top? then {} else CNodes(c.up) + {c.x} + Nodes(c.sib)
  }

  ghost predicate Distinct(t: Tree) {
    match t
    case Leaf => true
    case N(l, x, _, r) =>
      Distinct(l) && Distinct(r) && x !in Nodes(l) && x !in Nodes(r) && Nodes(l) !! Nodes(r)
  }

  ghost predicate CDistinct(c: Ctx) {
    c.Top? ||
    (CDistinct(c.up) && Distinct(c.sib) &&
     c.x !in CNodes(c.up) && c.x !in Nodes(c.sib) && CNodes(c.up) !! Nodes(c.sib))
  }

  ghost function Plug(c: Ctx, t: Tree): Tree {
    match c
    case Top => t
    case InL(up, x, b, sib) => Plug(up, N(t, x, b, sib))
    case InR(up, x, b, sib) => Plug(up, N(sib, x, b, t))
  }

  // ---------- colours ----------

  ghost predicate IsBlack(t: Tree) {
    t.Leaf? || t.b
  }

  // Every path below t has h black nodes, and no red node has a red child.
  ghost predicate Good(t: Tree, h: int) {
    match t
    case Leaf => h == 0
    case N(l, _, true, r) => Good(l, h - 1) && Good(r, h - 1)
    case N(l, _, false, r) => Good(l, h) && Good(r, h) && IsBlack(l) && IsBlack(r)
  }

  ghost predicate CBlack(c: Ctx) {
    !c.Top? && c.b
  }

  // A tree with h black nodes on every path fits the hole: the black counts
  // agree, and a red node of the context has a black parent and a black
  // sibling of the hole (so the root is black).
  ghost predicate CGood(c: Ctx, h: int) {
    c.Top? ||
    (Good(c.sib, h) &&
     if c.b then CGood(c.up, h + 1)
     else CGood(c.up, h) && CBlack(c.up) && IsBlack(c.sib))
  }

  // The invariants of a red-black tree.
  ghost predicate RedBlack(t: Tree) {
    IsBlack(t) && exists h :: Good(t, h)
  }

  lemma {:induction false} GoodPlug(c: Ctx, t: Tree, h: int)
    requires CGood(c, h) && Good(t, h) && (IsBlack(t) || CBlack(c))
    ensures RedBlack(Plug(c, t))
    decreases c
  {
    if c.Top? {
    } else {
      var t' := if c.InL? then N(t, c.x, c.b, c.sib) else N(c.sib, c.x, c.b, t);
      var h' := if c.b then h + 1 else h;
      assert Good(t', h');
      GoodPlug(c.up, t', h');
    }
  }

  // ---------- in-order sequence ----------

  ghost function Inorder(t: Tree): seq<Node> {
    match t
    case Leaf => []
    case N(l, x, _, r) => Inorder(l) + [x] + Inorder(r)
  }

  // The nodes of a context that come before and after its hole.
  ghost function Pre(c: Ctx): seq<Node> {
    match c
    case Top => []
    case InL(up, _, _, _) => Pre(up)
    case InR(up, x, _, sib) => Pre(up) + (Inorder(sib) + [x])
  }

  ghost function Post(c: Ctx): seq<Node> {
    match c
    case Top => []
    case InL(up, x, _, sib) => [x] + Inorder(sib) + Post(up)
    case InR(up, _, _, _) => Post(up)
  }

  ghost function Flat(c: Ctx, t: Tree): seq<Node> {
    Pre(c) + Inorder(t) + Post(c)
  }

  // The subtree one level up.
  ghost function Above(c: Ctx, t: Tree): Tree
    requires !c.Top?
  {
    if c.InL? then N(t, c.x, c.b, c.sib) else N(c.sib, c.x, c.b, t)
  }

  ghost function Depth(c: Ctx): nat {
    if c.Top? then 0 else 1 + Depth(c.up)
  }

  // All nodes of the tree that has t in the hole of c.
  ghost function All(c: Ctx, t: Tree): set<Node> {
    CNodes(c) + Nodes(t)
  }

  lemma {:induction false} FlatUp(c: Ctx, t: Tree)
    requires !c.Top?
    ensures Flat(c.up, Above(c, t)) == Flat(c, t) && All(c.up, Above(c, t)) == All(c, t)
  {
    if c.InL? {
      Regroup(Pre(c.up), Inorder(t), [c.x], Inorder(c.sib), Post(c.up));
    } else {
      Regroup(Pre(c.up), Inorder(c.sib), [c.x], Inorder(t), Post(c.up));
    }
  }

  lemma Regroup(pre: seq<Node>, l: seq<Node>, x: seq<Node>, r: seq<Node>, post: seq<Node>)
    ensures pre + (l + x + r) + post == pre + l + (x + r + post) == (pre + (l + x)) + r + post
  {
  }

  lemma {:induction false} FlatDownL(c: Ctx, t: Tree)
    requires t.N?
    ensures Flat(InL(c, t.x, t.b, t.r), t.l) == Flat(c, t) && All(InL(c, t.x, t.b, t.r), t.l) == All(c, t)
  {
    assert Above(InL(c, t.x, t.b, t.r), t.l) == t;
    FlatUp(InL(c, t.x, t.b, t.r), t.l);
  }

  lemma {:induction false} FlatDownR(c: Ctx, t: Tree)
    requires t.N?
    ensures Flat(InR(c, t.x, t.b, t.l), t.r) == Flat(c, t) && All(InR(c, t.x, t.b, t.l), t.r) == All(c, t)
  {
    assert Above(InR(c, t.x, t.b, t.l), t.r) == t;
    FlatUp(InR(c, t.x, t.b, t.l), t.r);
  }

  // ---------- the repair loop of insert ----------

  // The loop invariant of rb_insert_color: the subtree t at the hole has a red
  // root, fits the black counts of c, and only that root and the node above it
  // may both be red.
  ghost predicate RedAtHole(c: Ctx, t: Tree, h: int) {
    t.N? && !t.b && Good(t, h) && CGood(c, h)
  }

  // ---------- the repair loop of erase ----------

  ghost function Blackened(t: Tree): Tree {
    if t.N? then t.(b := true) else t
  }

  // The loop invariant of __rb_erase_color: the hole of c wants one black node
  // more than t has.  If t has a red root, blackening it supplies that node
  // (and hides a red child of the root).
  ghost predicate Short(c: Ctx, t: Tree, h: int) {
    CGood(c, h + 1) && if IsBlack(t) then Good(t, h) else Good(t.(b := true), h + 1)
  }

  lemma GoodNonneg(t: Tree, h: int)
    requires Good(t, h)
    ensures h >= 0
  {
  }

  // The sibling of a short subtree is not null, and neither are the nephews of
  // a red sibling.
  lemma {:induction false} SiblingExists(c: Ctx, t: Tree, h: int)
    requires Short(c, t, h) && IsBlack(t) && !c.Top?
    ensures c.sib.N? && (!c.sib.b ==> c.b && c.sib.l.N? && c.sib.r.N? && c.sib.l.b && c.sib.r.b)
  {
    GoodNonneg(t, h);
    assert Good(c.sib, h + 1);
    if !c.sib.b {
      assert Good(c.sib.l, h + 1) && Good(c.sib.r, h + 1);
    }
  }
}
