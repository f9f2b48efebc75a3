// The red-black trees on the heap as the search trees that the threads of
// Locking share: insert and remove make exactly the changes Linked and Unlinked.

module TreeSteps {
  import opened Entries
  import opened Keys
  import opened RbShape
  import Locking
  import RbTree
  import SearchTree
  import TableSpec

  // The search tree of a tree of nodes
  ghost function Seen(t: Tree): SearchTree.Tree {
    match t
    case Leaf => SearchTree.Leaf
    case N(l, x, _, r) => SearchTree.Node(Seen(l), Entry(x.key, x.data), Seen(r))
  }

  lemma {:induction false} SeenEntries(t: Tree)
    ensures SearchTree.EntriesOf(Seen(t)) == multiset(RbTree.EntriesOf(Inorder(t)))
  {
    if t.Leaf? {
    } else {
      SeenEntries(t.l);
      SeenEntries(t.r);
      RbTree.EntriesAppend(Inorder(t.l) + [t.x], Inorder(t.r));
      RbTree.EntriesAppend(Inorder(t.l), [t.x]);
      assert RbTree.EntriesOf([t.x]) == [Entry(t.x.key, t.x.data)];
    }
  }

  lemma SeenIn(s: seq<Node>, e: Entry) returns (i: nat)
    requires e in multiset(RbTree.EntriesOf(s))
    ensures i < |s| && e == Entry(s[i].key, s[i].data)
  {
    i :| 0 <= i < |s| && RbTree.EntriesOf(s)[i] == e;
  }

  lemma {:induction false} OrderedParts(cmp: Cmp, l: seq<Node>, x: Node, r: seq<Node>)
    requires RbTree.Ordered(cmp, l + [x] + r)
    ensures RbTree.Ordered(cmp, l) && RbTree.Ordered(cmp, r)
    ensures forall i :: 0 <= i < |l| ==> cmp(l[i].key, x.key) > 0
    ensures forall i :: 0 <= i < |r| ==> cmp(x.key, r[i].key) > 0
  {
    var s := l + [x] + r;
    assert s[|l|] == x;
    assert forall i :: 0 <= i < |l| ==> s[i] == l[i];
    assert forall i :: 0 <= i < |r| ==> s[|l| + 1 + i] == r[i];
  }

  // An in-order sequence in order is an ordered tree.
  lemma {:induction false} SeenOrdered(cmp: Cmp, t: Tree)
    requires TotalOrder(cmp) && RbTree.Ordered(cmp, Inorder(t))
    ensures SearchTree.Ordered(cmp, Seen(t))
  {
    hide TotalOrder, RbTree.Ordered, RbTree.EntriesOf, SearchTree.EntriesOf;
    if t.Leaf? {
    } else {
      OrderedParts(cmp, Inorder(t.l), t.x, Inorder(t.r));
      SeenOrdered(cmp, t.l);
      SeenOrdered(cmp, t.r);
      SeenEntries(t.l);
      SeenEntries(t.r);
      forall e | e in SearchTree.EntriesOf(Seen(t.l)) ensures cmp(e.key, t.x.key) > 0 {
        var i := SeenIn(Inorder(t.l), e);
      }
      forall e | e in SearchTree.EntriesOf(Seen(t.r)) ensures cmp(e.key, t.x.key) < 0 {
        var i := SeenIn(Inorder(t.r), e);
        CmpFlip(cmp, e.key, t.x.key);
      }
    }
  }

  // The entries of a sequence without duplicate keys, read off its map
  lemma EntryCount(es: seq<Entry>, e: Entry)
    requires Unique(es)
    ensures multiset(es)[e] == if e.key in Dict(es) && Dict(es)[e.key] == e.data then 1 else 0
  {
    DictKeys(es);
    if e.key in Dict(es) {
      var i :| 0 <= i < |es| && es[i].key == e.key;
      DictAt(es, i);
      Once(es, i, e);
    }
  }

  lemma Once(es: seq<Entry>, i: nat, e: Entry)
    requires Unique(es) && i < |es| && es[i].key == e.key
    ensures multiset(es)[e] == if es[i] == e then 1 else 0
  {
    var a, b := es[..i], es[i + 1..];
    assert es == a + [es[i]] + b;
    assert e !in a && e !in b;
  }

  // What the tree holds for a key is what the map holds for it.
  lemma SeenFind(t: Tree, key: Key)
    requires Unique(RbTree.EntriesOf(Inorder(t)))
    ensures var m := Dict(RbTree.EntriesOf(Inorder(t)));
            SearchTree.Find(Seen(t), key) == if key in m then Some(m[key]) else None
  {
    hide Unique, Dict, RbTree.EntriesOf, SearchTree.EntriesOf, SearchTree.Find;
    var m := Dict(RbTree.EntriesOf(Inorder(t)));
    SeenEntries(t);
    var found := SearchTree.Find(Seen(t), key);
    if found.Some? {
      EntryCount(RbTree.EntriesOf(Inorder(t)), Entry(key, found.value));
    } else if key in m {
      EntryCount(RbTree.EntriesOf(Inorder(t)), Entry(key, m[key]));
    }
  }

  // A map with one pair more stands for one entry more, and one with a pair
  // less for one entry less.
  lemma OneMore(es: seq<Entry>, e: Entry, fs: seq<Entry>)
    requires Unique(es) && Unique(fs) && e.key !in Dict(es) && Dict(fs) == Dict(es)[e.key := e.data]
    ensures multiset(fs) == multiset(es) + multiset{e}
  {
    hide Unique, Dict;
    forall f: Entry ensures multiset(fs)[f] == (multiset(es) + multiset{e})[f] {
      EntryCount(es, f);
      EntryCount(fs, f);
    }
  }

  lemma OneLess(es: seq<Entry>, e: Entry, fs: seq<Entry>)
    requires Unique(es) && Unique(fs) && e.key in Dict(es) && Dict(es)[e.key] == e.data && Dict(fs) == Dict(es) - {e.key}
    ensures multiset(fs) == multiset(es) - multiset{e}
  {
    hide Unique, Dict;
    forall f: Entry ensures multiset(fs)[f] == (multiset(es) - multiset{e})[f] {
      EntryCount(es, f);
      EntryCount(fs, f);
      if f.key == e.key {
        assert f.key !in Dict(fs) && (multiset(es)[f] == if f == e then 1 else 0);
      } else {
        assert f.key in Dict(es) <==> f.key in Dict(fs);
      }
    }
  }

  lemma Links(cmp: Cmp, t: Tree, e: Entry, t': Tree)
    requires TotalOrder(cmp) && RbTree.Ordered(cmp, Inorder(t)) && RbTree.Ordered(cmp, Inorder(t'))
    requires var m := Dict(RbTree.EntriesOf(Inorder(t)));
             e.key !in m && Dict(RbTree.EntriesOf(Inorder(t'))) == m[e.key := e.data]
    ensures SearchTree.Linked(cmp, Seen(t), e, Seen(t'))
  {
    hide TotalOrder, Unique, Dict, RbTree.Ordered, RbTree.EntriesOf, SearchTree.EntriesOf, SearchTree.Find, Seen;
    SeenAll(cmp, t);
    SeenAll(cmp, t');
    OneMore(RbTree.EntriesOf(Inorder(t)), e, RbTree.EntriesOf(Inorder(t')));
  }

  lemma Unlinks(cmp: Cmp, t: Tree, e: Entry, t': Tree)
    requires TotalOrder(cmp) && RbTree.Ordered(cmp, Inorder(t)) && RbTree.Ordered(cmp, Inorder(t'))
    requires var m := Dict(RbTree.EntriesOf(Inorder(t)));
             e.key in m && m[e.key] == e.data && Dict(RbTree.EntriesOf(Inorder(t'))) == m - {e.key}
    ensures SearchTree.Unlinked(cmp, Seen(t), e, Seen(t'))
  {
    hide TotalOrder, Unique, Dict, RbTree.Ordered, RbTree.EntriesOf, SearchTree.EntriesOf, SearchTree.Find, Seen;
    SeenAll(cmp, t);
    SeenAll(cmp, t');
    OneLess(RbTree.EntriesOf(Inorder(t)), e, RbTree.EntriesOf(Inorder(t')));
  }

  lemma SeenAll(cmp: Cmp, t: Tree)
    requires TotalOrder(cmp) && RbTree.Ordered(cmp, Inorder(t))
    ensures Unique(RbTree.EntriesOf(Inorder(t))) && SearchTree.Ordered(cmp, Seen(t))
    ensures SearchTree.EntriesOf(Seen(t)) == multiset(RbTree.EntriesOf(Inorder(t)))
  {
    hide Unique, RbTree.Ordered, RbTree.EntriesOf;
    RbTree.OrderedUnique(cmp, Inorder(t));
    SeenEntries(t);
    SeenOrdered(cmp, t);
  }

  function OpOf(c: Locking.Call): TableSpec.Op {
    match c
    case Insert(key, data) => TableSpec.Op.Insert(key, data)
    case Remove(key) => TableSpec.Op.Remove(key)
  }

  function DataAt(m: map<Key, Data>, key: Key): Option<Data> {
    if key in m then Some(m[key]) else None
  }

  // The atomic calls of the threads are the operations of the finite map: the
  // same answer, and the same map afterwards.
  lemma AtomicCalls(c: Locking.Call, m: map<Key, Data>, x: Key)
    ensures var a := Locking.Reply(c, DataAt(m, c.key));
            TableSpec.Reply(m, OpOf(c)) == TableSpec.Answer(a.code, a.data)
    ensures DataAt(TableSpec.After(m, OpOf(c)), x) ==
            if x == c.key then Locking.Effect(c, DataAt(m, x)) else DataAt(m, x)
  {
  }

  // lhi_insert_rbtree between its lock and its unlock: it answers as Find says,
  // and what it does to the tree is the step that Locking takes.
  method InsertLinks(b: RbTree.RbBucket, cmp: Cmp, key: Key, data: Data) returns (code: Code)
    requires b.Valid(cmp) && TotalOrder(cmp)
    modifies b.Repr
    ensures b.Valid(cmp) && fresh(b.Repr - old(b.Repr))
    ensures code == if SearchTree.Find(Seen(old(b.shape)), key).None? then Success else ErrDupKey
    ensures Locking.Answer(code, None) ==
      Locking.Reply(Locking.Insert(key, data), SearchTree.Find(Seen(old(b.shape)), key))
    ensures code == Success ==>
      SearchTree.Linked(cmp, Seen(old(b.shape)), Entry(key, data), Seen(b.shape))
    ensures code != Success ==> b.shape == old(b.shape)
  {
    hide TotalOrder, Unique, Dict, RbTree.Ordered, RbTree.EntriesOf, SearchTree.Linked, SearchTree.Find;
    SeenAll(cmp, b.shape);
    SeenFind(b.shape, key);
    ghost var t := b.shape;
    code := b.Insert(cmp, key, data);
    if code == Success {
      Links(cmp, t, Entry(key, data), b.shape);
    }
  }

  // lhi_remove_rbtree, with the data pointer that it hands out
  method RemoveUnlinks(b: RbTree.RbBucket, cmp: Cmp, key: Key) returns (code: Code, data: Option<Data>)
    requires b.Valid(cmp) && TotalOrder(cmp)
    modifies b.Repr
    ensures b.Valid(cmp) && fresh(b.Repr - old(b.Repr))
    ensures data == SearchTree.Find(Seen(old(b.shape)), key)
    ensures code == if data.Some? then Success else ErrNoKey
    ensures Locking.Answer(code, data) ==
      Locking.Reply(Locking.Remove(key), SearchTree.Find(Seen(old(b.shape)), key))
    ensures code == Success ==>
      SearchTree.Unlinked(cmp, Seen(old(b.shape)), Entry(key, data.value), Seen(b.shape))
    ensures code != Success ==> b.shape == old(b.shape)
  {
    hide TotalOrder, Unique, Dict, RbTree.Ordered, RbTree.EntriesOf, SearchTree.Unlinked, SearchTree.Find;
    SeenAll(cmp, b.shape);
    SeenFind(b.shape, key);
    ghost var t := b.shape;
    code, data := b.Remove(cmp, key);
    if code == Success {
      Unlinks(cmp, t, Entry(key, data.value), b.shape);
    }
  }
}
