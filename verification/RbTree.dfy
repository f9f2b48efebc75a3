// One tree of the red-black tree engine: lhi_get_rbtree, lhi_insert_rbtree,
// lhi_remove_rbtree and hi_rbtree_traverse on the bucket that the hash selects.

module RbTree {
  import opened Counters
  import opened Keys
  import opened Entries
  import opened RbShape
  import opened RbHeap
  import opened RbInsert
  import opened RbErase

  // ---------- order ----------

  ghost function EntriesOf(s: seq<Node>): (es: seq<Entry>)
    ensures |es| == |s|
    ensures forall i :: 0 <= i < |s| ==> es[i] == Entry(s[i].key, s[i].data)
  {
    seq(|s|, i requires 0 <= i < |s| => Entry(s[i].key, s[i].data))
  }

  // The search order is mirrored: larger keys come first, because a negative
  // comparison goes right.
  ghost predicate Ordered(cmp: Cmp, s: seq<Node>) {
    forall i, j :: 0 <= i < j < |s| ==> cmp(s[i].key, s[j].key) > 0
  }

  // key belongs into the hole of c.
  ghost predicate Between(cmp: Cmp, key: Key, c: Ctx) {
    && (forall i :: 0 <= i < |Pre(c)| ==> cmp(key, Pre(c)[i].key) < 0)
    && (forall i :: 0 <= i < |Post(c)| ==> cmp(key, Post(c)[i].key) > 0)
  }

  lemma {:induction false} GoRight(cmp: Cmp, key: Key, c: Ctx, t: Tree)
    requires TotalOrder(cmp) && Ordered(cmp, Flat(c, t)) && Between(cmp, key, c)
    requires t.N? && cmp(key, t.x.key) < 0
    ensures Between(cmp, key, InR(c, t.x, t.b, t.l))
  {
    hide TotalOrder;
    var l, s := Inorder(t.l), Flat(c, t);
    var p := |Pre(c)|;
    assert s[p + |l|] == t.x;
    forall i | 0 <= i < |l|
      ensures cmp(key, l[i].key) < 0
    {
      assert s[p + i] == l[i];
      CmpFlip(cmp, key, t.x.key);
      CmpTrans(cmp, l[i].key, t.x.key, key);
      CmpFlip(cmp, key, l[i].key);
    }
  }

  lemma {:induction false} GoLeft(cmp: Cmp, key: Key, c: Ctx, t: Tree)
    requires TotalOrder(cmp) && Ordered(cmp, Flat(c, t)) && Between(cmp, key, c)
    requires t.N? && cmp(key, t.x.key) > 0
    ensures Between(cmp, key, InL(c, t.x, t.b, t.r))
  {
    hide TotalOrder;
    var r, s := Inorder(t.r), Flat(c, t);
    var p := |Pre(c)| + |Inorder(t.l)|;
    assert s[p] == t.x;
    forall i | 0 <= i < |r|
      ensures cmp(key, r[i].key) > 0
    {
      assert s[p + 1 + i] == r[i];
      CmpTrans(cmp, key, t.x.key, r[i].key);
    }
  }

  lemma OrderedUnique(cmp: Cmp, s: seq<Node>)
    requires DecidesEquality(cmp) && Ordered(cmp, s)
    ensures Unique(EntriesOf(s))
  {
    assert forall i, j :: 0 <= i < j < |s| ==> cmp(s[i].key, s[j].key) != 0;
  }

  lemma EntriesAppend(p: seq<Node>, q: seq<Node>)
    ensures EntriesOf(p + q) == EntriesOf(p) + EntriesOf(q)
  {
  }

  lemma {:induction false} OrderedInsert(cmp: Cmp, p: seq<Node>, x: Node, q: seq<Node>)
    requires TotalOrder(cmp) && Ordered(cmp, p + q)
    requires forall i :: 0 <= i < |p| ==> cmp(x.key, p[i].key) < 0
    requires forall i :: 0 <= i < |q| ==> cmp(x.key, q[i].key) > 0
    ensures Ordered(cmp, p + [x] + q)
  {
    hide TotalOrder;
    var s := p + [x] + q;
    forall i, j | 0 <= i < j < |s|
      ensures cmp(s[i].key, s[j].key) > 0
    {
      CmpFlip(cmp, x.key, s[i].key);
      if i != |p| && j != |p| {
        assert s[i] == (p + q)[if i < |p| then i else i - 1];
        assert s[j] == (p + q)[if j < |p| then j else j - 1];
      }
    }
  }

  lemma {:induction false} OrderedWithout(cmp: Cmp, p: seq<Node>, x: Node, q: seq<Node>)
    requires Ordered(cmp, p + [x] + q)
    ensures Ordered(cmp, p + q)
  {
    var s, r := p + [x] + q, p + q;
    assert forall i :: 0 <= i < |r| ==> r[i] == s[if i < |p| then i else i + 1];
  }

  // A node with a new key adds its pair to the map, and without it the map
  // loses exactly that pair.
  lemma {:induction false} DictOfNodes(cmp: Cmp, p: seq<Node>, x: Node, q: seq<Node>)
    requires DecidesEquality(cmp) && Ordered(cmp, p + [x] + q)
    ensures Dict(EntriesOf(p + [x] + q)) == Dict(EntriesOf(p + q))[x.key := x.data]
    ensures Dict(EntriesOf(p + q)) == Dict(EntriesOf(p + [x] + q)) - {x.key}
  {
    var e := Entry(x.key, x.data);
    OrderedUnique(cmp, p + [x] + q);
    EntriesAppend(p + [x], q);
    EntriesAppend(p, [x]);
    EntriesAppend(p, q);
    assert EntriesOf([x]) == [e];
    UniqueWithout(EntriesOf(p), e, EntriesOf(q));
    DictInsert(EntriesOf(p), e, EntriesOf(q));
  }

  // ---------- the order of a snapshot ----------

  // hi_rbtree_traverse numbers a node before its left and its right subtree.
  ghost function Preorder(t: Tree): seq<Node> {
    match t
    case Leaf => []
    case N(l, x, _, r) => [x] + Preorder(l) + Preorder(r)
  }

  lemma {:induction false} PreorderPermutes(t: Tree)
    ensures multiset(EntriesOf(Preorder(t))) == multiset(EntriesOf(Inorder(t)))
    ensures |Preorder(t)| == |Inorder(t)|
  {
    if t.Leaf? {
    } else {
      PreorderPermutes(t.l);
      PreorderPermutes(t.r);
      var l, x, r := Preorder(t.l), [t.x], Preorder(t.r);
      EntriesAppend(x + l, r);
      EntriesAppend(x, l);
      EntriesAppend(Inorder(t.l) + x, Inorder(t.r));
      EntriesAppend(Inorder(t.l), x);
    }
  }

  // The slots from pos on hold the nodes of s, as far as the array reaches.
  ghost predicate Filled(a: seq<Option<Entry>>, pos: nat, s: seq<Node>) {
    forall i :: 0 <= i < |s| && pos + i < |a| ==> a[pos + i] == Some(Entry(s[i].key, s[i].data))
  }

  // a and b agree outside of the slots from pos up to end.
  ghost predicate SameOutside(a: seq<Option<Entry>>, b: seq<Option<Entry>>, pos: nat, end: nat) {
    |a| == |b| && forall i :: 0 <= i < |a| && !(pos <= i < end) ==> a[i] == b[i]
  }

  lemma FilledNone(a: seq<Option<Entry>>, pos: nat)
    ensures Filled(a, pos, []) && SameOutside(a, a, pos, pos)
  {
  }

  lemma FilledSnapshot(a: seq<Option<Entry>>, s: seq<Node>, m: map<Key, Data>)
    requires |a| == |s| && Filled(a, 0, s) && Unique(EntriesOf(s)) && Dict(EntriesOf(s)) == m
    ensures Snapshot(a, m)
  {
    hide Unique, Dict;
    forall i | 0 <= i < |a| ensures a[i] == Some(EntriesOf(s)[i]) {
      assert a[0 + i] == a[i];
    }
    assert Values(a) == EntriesOf(s);
  }

  lemma {:induction false} FilledNode(a0: seq<Option<Entry>>, a1: seq<Option<Entry>>,
                                      a2: seq<Option<Entry>>, a3: seq<Option<Entry>>,
                                      pos: nat, l: seq<Node>, x: Node, r: seq<Node>)
    requires Filled(a1, pos + 1, l) && SameOutside(a0, a1, pos + 1, pos + 1 + |l|)
    requires Filled(a2, pos + 1 + |l|, r) && SameOutside(a1, a2, pos + 1 + |l|, pos + 1 + |l| + |r|)
    requires |a3| == |a2| && a3 == if pos < |a2| then a2[pos := Some(Entry(x.key, x.data))] else a2
    ensures var s := [x] + l + r;
      Filled(a3, pos, s) && SameOutside(a0, a3, pos, pos + |s|)
  {
    var s := [x] + l + r;
    forall i | 0 <= i < |s| && pos + i < |a3|
      ensures a3[pos + i] == Some(Entry(s[i].key, s[i].data))
    {
      if 0 < i <= |l| {
        assert a1[pos + 1 + (i - 1)] == Some(Entry(l[i - 1].key, l[i - 1].data));
      } else if i > |l| {
        var k := i - 1 - |l|;
        assert a2[pos + 1 + |l| + k] == Some(Entry(r[k].key, r[k].data));
      }
    }
  }

  lemma {:induction false} BlackHeight(t: Tree) returns (h: int)
    requires RedBlack(t)
    ensures Good(t, h) && Fits(Top, t, h)
  {
    h :| Good(t, h);
  }

  // ---------- height ----------

  ghost function Height(t: Tree): nat {
    if t.Leaf? then 0 else 1 + if Height(t.l) > Height(t.r) then Height(t.l) else Height(t.r)
  }

  function Pow2(n: nat): nat {
    if n == 0 then 1 else 2 * Pow2(n - 1)
  }

  lemma {:induction false} PathsOf(t: Tree, h: int)
    requires Good(t, h)
    ensures h >= 0 && Pow2(h) <= |Inorder(t)| + 1
    ensures Height(t) <= if IsBlack(t) then 2 * h else 2 * h + 1
  {
    if t.Leaf? {
    } else {
      var h' := if t.b then h - 1 else h;
      PathsOf(t.l, h');
      PathsOf(t.r, h');
    }
  }

  // A tree of n nodes has height at most 2 log2 (n + 1).
  lemma {:induction false} HeightBound(t: Tree)
    requires RedBlack(t)
    ensures Pow2(Height(t) / 2) <= |Inorder(t)| + 1
  {
    var h :| Good(t, h);
    PathsOf(t, h);
    Pow2Mono(Height(t) / 2, h);
  }

  lemma {:induction false} Pow2Mono(m: nat, n: nat)
    requires m <= n
    ensures Pow2(m) <= Pow2(n)
  {
    if m == n {
    } else {
      Pow2Mono(m, n - 1);
    }
  }

  // ---------- the bucket ----------

  // rb_link_node and rb_insert_color, one after the other
  method Join(root: RbRoot, added: Node, parent: Node?, link: Link, ghost c: Ctx, ghost h: int)
    returns (ghost s: Tree)
    requires root.Holds(c, Leaf) && Fits(c, Leaf, h) && added !in CNodes(c)
    requires parent == Parent(c) && link == LinkOf(c)
    modifies root, added, CNodes(c)
    ensures root.Holds(Top, s) && RedBlack(s)
    ensures Inorder(s) == Pre(c) + [added] + Post(c) && Nodes(s) == CNodes(c) + {added}
  {
    ghost var t := root.LinkNode(added, parent, link, c);
    assert RedAtHole(c, t, 0) && Inorder(t) == [added];
    s := InsertColor(root, added, c, t, 0);
  }

  class RbBucket {
    const root: RbRoot
    var size: nat          // bucket_size[tree], a 32-bit counter
    ghost var shape: Tree
    ghost var Repr: set<object>
    ghost var contents: map<Key, Data>

    constructor (ghost cmp: Cmp)
      ensures Valid(cmp) && fresh(Repr) && contents == map[]
    {
      root := new RbRoot();
      size := 0;
      shape := Leaf;
      Repr := {this, root};
      contents := map[];
      new;
      assert Good(Leaf, 0);
    }

    ghost function Entries(): seq<Entry>
      reads this
    {
      EntriesOf(Inorder(shape))
    }

    ghost predicate Valid(cmp: Cmp)
      reads this, Repr
      ensures Valid(cmp) ==> this in Repr
    {
      && Shaped()
      && Ordered(cmp, Inorder(shape))
      && size == |Inorder(shape)| % WORD
      && contents == Dict(Entries())
    }

    // The whole tree is its own subtree at the root.
    lemma AtTop(cmp: Cmp, key: Key) returns (h: int)
      requires Valid(cmp)
      ensures Between(cmp, key, Top)
      ensures root.Holds(Top, shape) && Fits(Top, shape, h) && Ordered(cmp, Inorder(shape))
      ensures Flat(Top, shape) == Inorder(shape) && All(Top, shape) == Nodes(shape)
    {
      hide Ordered, Dict, Unique;
      h := BlackHeight(shape);
    }

    // The search loop that get, insert and remove share.  It stops at the node
    // with the key, or at the empty place (given by parent and link) where the
    // key belongs; compared counts the calls of key_cmp.
    method Search(cmp: Cmp, key: Key)
      returns (node: Node?, parent: Node?, link: Link, ghost c: Ctx, ghost t: Tree, ghost h: int, ghost compared: nat)
      requires Valid(cmp) && TotalOrder(cmp)
      ensures root.Holds(c, t) && Fits(c, t, h)
      ensures Flat(c, t) == Inorder(shape) && All(c, t) == Nodes(shape)
      ensures node == Root(t) && parent == Parent(c) && link == LinkOf(c)
      ensures t.N? ==> t.x.key == key
      ensures t.Leaf? ==> Between(cmp, key, c)
      ensures compared <= Height(shape)
    {
      hide TotalOrder, Ordered, Between, Valid, Fits, Flat, All, Inorder, Nodes, Good, CGood;
      h := AtTop(cmp, key);
      node, parent, link := root.node, null, AtRoot;
      c, t, compared := Top, shape, 0;
      while node != null
        invariant root.Holds(c, t) && Fits(c, t, h)
        invariant Flat(c, t) == Inorder(shape) && All(c, t) == Nodes(shape)
        invariant node == Root(t) && parent == Parent(c) && link == LinkOf(c)
        invariant Between(cmp, key, c)
        invariant compared + Height(t) <= Height(shape)
        decreases t
      {
        root.Peek(c, t);
        var diff := cmp(key, node.key);
        compared := compared + 1;
        CmpZero(cmp, key, node.key);
        if diff == 0 {
          return;
        }
        parent := node;
        if diff < 0 {
          link := RightOf(node);
          node := node.right;
          GoRight(cmp, key, c, t);
          StepR(root, c, t, h);
          c, t, h := InR(c, t.x, t.b, t.l), t.r, if t.b then h - 1 else h;
        } else {
          link := LeftOf(node);
          node := node.left;
          GoLeft(cmp, key, c, t);
          StepL(root, c, t, h);
          c, t, h := InL(c, t.x, t.b, t.r), t.l, if t.b then h - 1 else h;
        }
      }
    }

    // lhi_get_rbtree
    method Get(cmp: Cmp, key: Key) returns (code: Code, data: Option<Data>, ghost compared: nat)
      requires Valid(cmp) && TotalOrder(cmp)
      ensures code == (if key in contents then Success else ErrNoKey)
      ensures data == (if key in contents then Some(contents[key]) else None)
      ensures Pow2(compared / 2) <= |contents| + 1
    {
      var node, parent, link;
      ghost var c, t, h;
      node, parent, link, c, t, h, compared := Search(cmp, key);
      HeightBound(shape);
      Pow2Mono(compared / 2, Height(shape) / 2);
      OrderedUnique(cmp, Inorder(shape));
      DictSize(Entries());
      if node != null {
        Found(c, t);
        return Success, Some(node.data), compared;
      }
      Missing(cmp, key, c);
      return ErrNoKey, None, compared;
    }

    lemma Found(c: Ctx, t: Tree)
      requires t.N? && Flat(c, t) == Inorder(shape) && Unique(Entries())
      ensures t.x.key in Dict(Entries()) && Dict(Entries())[t.x.key] == t.x.data
    {
      var i := |Pre(c)| + |Inorder(t.l)|;
      assert Flat(c, t)[i] == t.x;
      DictAt(Entries(), i);
    }

    lemma Missing(cmp: Cmp, key: Key, c: Ctx)
      requires DecidesEquality(cmp) && Between(cmp, key, c) && Flat(c, Leaf) == Inorder(shape)
      ensures key !in Dict(Entries())
      ensures forall e :: e in Entries() ==> e.key != key
    {
      assert Flat(c, Leaf) == Pre(c) + Post(c);
      DictKeys(Entries());
      forall i | 0 <= i < |Entries()|
        ensures Entries()[i].key != key
      {
        var x := Inorder(shape)[i];
        assert x == if i < |Pre(c)| then Pre(c)[i] else Post(c)[i - |Pre(c)|];
        assert cmp(key, x.key) != 0;
      }
    }

    // The tree is in order except, perhaps, for its keys and its counter.
    ghost predicate Shaped()
      reads this, Repr
    {
      Repr == {this, root} + Nodes(shape) && root.Holds(Top, shape) && RedBlack(shape)
    }

    // The new node goes to the empty place of c (lib/hi_rbtree.c, lines 514 to 516).
    method Attach(added: Node, parent: Node?, link: Link, ghost c: Ctx, ghost h: int, ghost m: map<Key, Data>)
      requires root.Holds(c, Leaf) && Fits(c, Leaf, h) && added !in CNodes(c)
      requires parent == Parent(c) && link == LinkOf(c)
      requires Repr == {this, root} + CNodes(c)
      modifies this, root, added, CNodes(c)
      ensures Shaped() && Repr == old(Repr) + {added}
      ensures Inorder(shape) == Pre(c) + [added] + Post(c)
      ensures size == Inc32(old(size)) && contents == m
    {
      hide Dict, Unique, EntriesOf, Inorder, Pre, Post, RedBlack, Fits;
      ghost var s := Join(root, added, parent, link, c, h);
      assert forall n :: n in Nodes(s) ==> n as object != this;
      size, shape, Repr, contents := Inc32(size), s, Repr + {added}, m;
    }

    // The node at the root of t leaves the tree (lines 453 to 456).
    method Detach(node: Node, ghost c: Ctx, ghost t: Tree, ghost h: int, ghost m: map<Key, Data>)
      requires root.Holds(c, t) && Fits(c, t, h) && t.N? && t.x == node
      requires Repr == {this, root} + All(c, t)
      modifies this, root, All(c, t)
      ensures Shaped() && Repr == old(Repr) - {node}
      ensures Inorder(shape) == Pre(c) + Inorder(t.l) + Inorder(t.r) + Post(c)
      ensures size == Dec32(old(size)) && contents == m
    {
      hide Dict, Unique, EntriesOf, Inorder, Pre, Post, RedBlack, Fits, Good, CGood, Rep, CRep, Distinct, CDistinct;
      ghost var s := Erase(root, node, c, t, h);
      assert forall n :: n in Nodes(s) ==> n as object != this;
      size, shape, Repr, contents := Dec32(size), s, Repr - {node}, m;
    }

    // The entries after a new node x went into the hole of c.
    lemma Added(cmp: Cmp, c: Ctx, x: Node)
      requires TotalOrder(cmp) && Between(cmp, x.key, c)
      requires Flat(c, Leaf) == Inorder(shape) && Ordered(cmp, Inorder(shape))
      ensures var s := Pre(c) + [x] + Post(c);
        && Ordered(cmp, s) && |s| == |Inorder(shape)| + 1
        && Dict(EntriesOf(s)) == Dict(Entries())[x.key := x.data]
    {
      hide DecidesEquality, Ordered, Dict, EntriesOf;
      assert Flat(c, Leaf) == Pre(c) + Post(c);
      OrderedInsert(cmp, Pre(c), x, Post(c));
      DictOfNodes(cmp, Pre(c), x, Post(c));
    }

    // lhi_insert_rbtree
    method Insert(cmp: Cmp, key: Key, data: Data) returns (code: Code)
      requires Valid(cmp) && TotalOrder(cmp)
      modifies Repr
      ensures Valid(cmp) && fresh(Repr - old(Repr))
      ensures code == (if key in old(contents) then ErrDupKey else Success)
      ensures code == ErrDupKey ==> shape == old(shape) && size == old(size)
      ensures contents == if code == Success then old(contents)[key := data] else old(contents)
    {
      hide DecidesEquality, Ordered, Between, Dict, Unique, EntriesOf;
      hide Inorder, Pre, Post, RedBlack, Rep, CRep, Distinct, CDistinct;
      var node, parent, link;
      ghost var c, t, h, compared;
      node, parent, link, c, t, h, compared := Search(cmp, key);
      if node != null {
        OrderedUnique(cmp, Inorder(shape));
        Found(c, t);
        return ErrDupKey;
      }
      Missing(cmp, key, c);
      assert CNodes(c) == Nodes(shape) && allocated(CNodes(c));
      var added := new Node(key, data);
      Added(cmp, c, added);
      Attach(added, parent, link, c, h, contents[key := data]);
      CountUp(|old(Inorder(shape))|, |Inorder(shape)|);
      return Success;
    }

    // The entries after the node at the root of t left the tree.
    lemma Removed(cmp: Cmp, c: Ctx, t: Tree)
      requires DecidesEquality(cmp) && Ordered(cmp, Inorder(shape))
      requires t.N? && Flat(c, t) == Inorder(shape)
      ensures var s := Pre(c) + Inorder(t.l) + Inorder(t.r) + Post(c);
        && Ordered(cmp, s) && |s| == |Inorder(shape)| - 1
        && Dict(EntriesOf(s)) == Dict(Entries()) - {t.x.key}
    {
      hide DecidesEquality, Ordered, Dict, EntriesOf;
      var p, q := Pre(c) + Inorder(t.l), Inorder(t.r) + Post(c);
      assert Flat(c, t) == p + [t.x] + q;
      assert Pre(c) + Inorder(t.l) + Inorder(t.r) + Post(c) == p + q;
      OrderedWithout(cmp, p, t.x, q);
      DictOfNodes(cmp, p, t.x, q);
    }

    // lhi_remove_rbtree
    method Remove(cmp: Cmp, key: Key) returns (code: Code, data: Option<Data>)
      requires Valid(cmp) && TotalOrder(cmp)
      modifies Repr
      ensures Valid(cmp) && fresh(Repr - old(Repr))
      ensures code == (if key in old(contents) then Success else ErrNoKey)
      ensures data == (if key in old(contents) then Some(old(contents)[key]) else None)
      ensures code == ErrNoKey ==> shape == old(shape) && size == old(size)
      ensures contents == old(contents) - {key}
    {
      hide DecidesEquality, Ordered, Between, Dict, Unique, EntriesOf;
      hide Inorder, Pre, Post, RedBlack, Rep, CRep, Distinct, CDistinct;
      var node, parent, link;
      ghost var c, t, h, compared;
      node, parent, link, c, t, h, compared := Search(cmp, key);
      if node == null {
        Missing(cmp, key, c);
        return ErrNoKey, None;
      }
      OrderedUnique(cmp, Inorder(shape));
      Found(c, t);
      Removed(cmp, c, t);
      data := Some(node.data);
      Detach(node, c, t, h, contents - {key});
      CountDown(|old(Inorder(shape))|, |Inorder(shape)|);
      code := Success;
    }

    // hi_rbtree_traverse: the entries of the subtree at node go to the slots
    // from pos on, as far as the array reaches.
    static method Traverse(node: Node, pos: nat, a: array<Option<Entry>>, ghost t: Tree, ghost p: Node?)
      returns (end: nat)
      requires Rep(t, p) && t.N? && t.x == node
      modifies a
      ensures end == pos + |Preorder(t)|
      ensures Filled(a[..], pos, Preorder(t)) && SameOutside(old(a[..]), a[..], pos, end)
      decreases t
    {
      hide Filled, SameOutside;
      ghost var a0 := a[..];
      var left := node.left;
      assert Rep(t.l, node) && Rep(t.r, node);
      assert allocated(Nodes(t.r)) && forall n :: n in Nodes(t.r) ==> n as object != a;
      end := pos + 1;
      FilledNone(a0, end);
      if left != null {
        end := Traverse(left, end, a, t.l, node);
      }
      ghost var a1 := a[..];
      assert Rep(t.r, node);
      var right := node.right;
      FilledNone(a1, end);
      if right != null {
        end := Traverse(right, end, a, t.r, node);
      }
      ghost var a2 := a[..];
      if pos < a.Length {
        a[pos] := Some(Entry(node.key, node.data));
        assert a[..] == a2[pos := Some(Entry(node.key, node.data))];
      }
      FilledNode(a0, a1, a2, a[..], pos, Preorder(t.l), node, Preorder(t.r));
    }

    // What lhi_rbtree_bucket_to_array finds: a counter, and the nodes to store.
    lemma AtSnapshot(cmp: Cmp)
      requires Valid(cmp) && DecidesEquality(cmp)
      ensures size == |contents| % WORD && |Preorder(shape)| == |contents|
      ensures Unique(EntriesOf(Preorder(shape))) && Dict(EntriesOf(Preorder(shape))) == contents
      ensures root.node == Root(shape) && Rep(shape, null) && Repr == {this, root} + Nodes(shape)
      ensures shape.Leaf? ==> |contents| == 0
    {
      hide Dict, Ordered, Preorder, Unique, RedBlack, EntriesOf;
      PreorderPermutes(shape);
      OrderedUnique(cmp, Inorder(shape));
      DictSize(Entries());
      Reordered(Entries(), EntriesOf(Preorder(shape)));
    }

    // lhi_rbtree_bucket_to_array.  The snapshot has as many slots as the counter
    // says, and is complete exactly when the counter has not wrapped.
    method ToArray(cmp: Cmp) returns (code: Code, a: array<Option<Entry>>)
      requires Valid(cmp) && DecidesEquality(cmp)
      ensures fresh(a)
      ensures code == if |contents| % WORD == 0 then ErrNoData else Success
      ensures code == Success ==> a.Length == |contents| % WORD
      ensures code == Success ==> (Snapshot(a[..], contents) <==> |contents| < WORD)
    {
      hide Valid, Rep, Nodes, Dict, Preorder, Unique, EntriesOf, Snapshot, Filled, SameOutside;
      AtSnapshot(cmp);
      var node := root.node;
      a := new Option<Entry>[size](_ => None);
      if node == null || size == 0 {
        return ErrNoData, a;
      }
      var end := Traverse(node, 0, a, shape, null);
      if |contents| < WORD {
        FilledSnapshot(a[..], Preorder(shape), contents);
      } else {
        SnapshotSize(a[..], contents);
      }
      code := Success;
    }
  }
}
