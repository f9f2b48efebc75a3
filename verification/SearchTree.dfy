// Search trees as values: what a tree of the red-black tree engine is to the
// threads that search and change it.  The colours are forgotten; TreeSteps ties
// these trees to the ones on the heap.

module SearchTree {
  import opened Keys
  import opened Entries

  datatype Tree = Leaf | Node(left: Tree, entry: Entry, right: Tree)

  ghost function EntriesOf(t: Tree): multiset<Entry> {
    match t
    case Leaf => multiset{}
    case Node(l, e, r) => EntriesOf(l) + multiset{e} + EntriesOf(r)
  }

  // A key that compares as smaller than a node's lies to the right of it.
  ghost predicate Ordered(cmp: Cmp, t: Tree) {
    match t
    case Leaf => true
    case Node(l, e, r) =>
      && Ordered(cmp, l) && Ordered(cmp, r)
      && (forall f :: f in EntriesOf(l) ==> cmp(f.key, e.key) > 0)
      && (forall f :: f in EntriesOf(r) ==> cmp(f.key, e.key) < 0)
  }

  // The data pointer that the tree holds for a key
  ghost function Find(t: Tree, key: Key): (r: Option<Data>)
    ensures r.Some? ==> Entry(key, r.value) in EntriesOf(t)
    ensures r.None? ==> forall e :: e in EntriesOf(t) ==> e.key != key
  {
    if e :| e in EntriesOf(t) && e.key == key then Some(e.data) else None
  }

  lemma {:induction false} NoDuplicates(cmp: Cmp, t: Tree, e: Entry, f: Entry)
    requires TotalOrder(cmp) && Ordered(cmp, t) && e in EntriesOf(t) && f in EntriesOf(t) && e.key == f.key
    ensures e == f && EntriesOf(t)[e] == 1
  {
    hide TotalOrder;
    match t
    case Node(l, x, r) =>
      CmpZero(cmp, e.key, x.key);
      if e in EntriesOf(l) && f in EntriesOf(l) {
        NoDuplicates(cmp, l, e, f);
      } else if e in EntriesOf(r) && f in EntriesOf(r) {
        NoDuplicates(cmp, r, e, f);
      }
  }

  lemma FindIs(cmp: Cmp, t: Tree, e: Entry)
    requires TotalOrder(cmp) && Ordered(cmp, t) && e in EntriesOf(t)
    ensures Find(t, e.key) == Some(e.data)
  {
    hide TotalOrder, Ordered;
    NoDuplicates(cmp, t, e, Entry(e.key, Find(t, e.key).value));
  }

  // ---------- Searching ----------

  // Where the search goes on from a node with another key
  function Toward(cmp: Cmp, key: Key, t: Tree): Tree
    requires t.Node?
  {
    if cmp(key, t.entry.key) < 0 then t.right else t.left
  }

  // at is a subtree of t.
  ghost predicate Within(at: Tree, t: Tree) {
    at == t || (t.Node? && (Within(at, t.left) || Within(at, t.right)))
  }

  lemma {:induction false} WithinToward(cmp: Cmp, key: Key, at: Tree, t: Tree)
    requires Within(at, t) && at.Node?
    ensures Within(Toward(cmp, key, at), t)
  {
    if at == t {
      assert Within(t.left, t.left) && Within(t.right, t.right);
    } else if Within(at, t.left) {
      WithinToward(cmp, key, at, t.left);
    } else {
      WithinToward(cmp, key, at, t.right);
    }
  }

  lemma {:induction false} WithinHolds(at: Tree, t: Tree)
    requires Within(at, t) && at.Node?
    ensures at.entry in EntriesOf(t)
  {
    if at == t {
    } else if Within(at, t.left) {
      WithinHolds(at, t.left);
    } else {
      WithinHolds(at, t.right);
    }
  }

  lemma TowardHolds(cmp: Cmp, t: Tree, e: Entry)
    requires TotalOrder(cmp) && Ordered(cmp, t) && t.Node? && cmp(e.key, t.entry.key) != 0
    ensures Ordered(cmp, Toward(cmp, e.key, t))
    ensures e in EntriesOf(t) <==> e in EntriesOf(Toward(cmp, e.key, t))
  {
    hide TotalOrder;
    CmpZero(cmp, e.key, t.entry.key);
    assert e != t.entry;
  }

  // One comparison finds the key, or leaves what the search looks for in view.
  lemma FindToward(cmp: Cmp, key: Key, t: Tree)
    requires TotalOrder(cmp) && Ordered(cmp, t) && t.Node?
    ensures cmp(key, t.entry.key) == 0 ==> key == t.entry.key && Find(t, key) == Some(t.entry.data)
    ensures cmp(key, t.entry.key) != 0 ==>
      Ordered(cmp, Toward(cmp, key, t)) && Find(t, key) == Find(Toward(cmp, key, t), key)
  {
    hide TotalOrder, Ordered, Find, Toward;
    CmpZero(cmp, key, t.entry.key);
    if key == t.entry.key {
      FindIs(cmp, t, t.entry);
    } else {
      var next := Toward(cmp, key, t);
      var here, there := Find(t, key), Find(next, key);
      TowardHolds(cmp, t, Entry(key, t.entry.data));
      if here.Some? {
        TowardHolds(cmp, t, Entry(key, here.value));
        FindIs(cmp, next, Entry(key, here.value));
      } else if there.Some? {
        TowardHolds(cmp, t, Entry(key, there.value));
      }
    }
  }

  // ---------- Changing ----------

  // The tree after rb_link_node and rb_insert_color, and after rb_erase: the
  // change in its entries, and the order that the change keeps.
  ghost predicate Linked(cmp: Cmp, t: Tree, e: Entry, t': Tree) {
    && EntriesOf(t') == EntriesOf(t) + multiset{e}
    && (Ordered(cmp, t) && Find(t, e.key).None? ==> Ordered(cmp, t'))
  }

  ghost predicate Unlinked(cmp: Cmp, t: Tree, e: Entry, t': Tree) {
    && EntriesOf(t') == EntriesOf(t) - multiset{e}
    && (Ordered(cmp, t) ==> Ordered(cmp, t'))
  }

  lemma FindLinked(cmp: Cmp, t: Tree, e: Entry, t': Tree, key: Key)
    requires TotalOrder(cmp) && Ordered(cmp, t) && Find(t, e.key).None? && Linked(cmp, t, e, t')
    ensures Find(t', key) == if key == e.key then Some(e.data) else Find(t, key)
  {
    hide TotalOrder, Ordered;
    if key == e.key {
      FindIs(cmp, t', e);
    } else if Find(t, key).Some? {
      FindIs(cmp, t', Entry(key, Find(t, key).value));
    }
  }

  lemma FindUnlinked(cmp: Cmp, t: Tree, e: Entry, t': Tree, key: Key)
    requires TotalOrder(cmp) && Ordered(cmp, t) && e in EntriesOf(t) && Unlinked(cmp, t, e, t')
    ensures Find(t', key) == if key == e.key then None else Find(t, key)
  {
    hide TotalOrder, Ordered, Find, EntriesOf;
    var before, after := Find(t, key), Find(t', key);
    if key == e.key {
      if after.Some? {
        NoDuplicates(cmp, t, e, Entry(key, after.value));
      }
    } else if before.Some? {
      FindIs(cmp, t', Entry(key, before.value));
    }
  }
}
