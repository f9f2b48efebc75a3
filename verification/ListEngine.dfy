// One bucket of the LIST and LIST_MTF engines (lib/hi_list.c): a singly linked
// list that is spliced in place.

module ListEngine {
  import opened Counters
  import opened Keys
  import opened Entries

  // hi_bucket_obj_t
  class ListNode {
    const key: Key
    const data: Data
    var next: ListNode?

    constructor (key: Key, data: Data, next: ListNode?)
      ensures this.key == key && this.data == data && this.next == next
    {
      this.key, this.data, this.next := key, data, next;
    }
  }

  ghost function EntriesOf(s: seq<ListNode>): (es: seq<Entry>)
    ensures |es| == |s|
    ensures forall i :: 0 <= i < |s| ==> es[i] == Entry(s[i].key, s[i].data)
  {
    seq(|s|, i requires 0 <= i < |s| => Entry(s[i].key, s[i].data))
  }

  // The node at position i, or null at the end of the list.
  ghost function At(s: seq<ListNode>, i: nat): ListNode? {
    if i < |s| then s[i] else null
  }

  // The nodes of s are a list that starts at head.
  ghost predicate Linked(s: seq<ListNode>, head: ListNode?)
    reads s
  {
    head == At(s, 0) && forall i {:trigger s[i].next} :: 0 <= i < |s| ==> s[i].next == At(s, i + 1)
  }

  ghost predicate NoRepeat(s: seq<ListNode>) {
    forall i, j :: 0 <= i < j < |s| ==> s[i] != s[j]
  }

  lemma UniqueNoRepeat(s: seq<ListNode>)
    requires Unique(EntriesOf(s))
    ensures NoRepeat(s)
  {
    assert forall i, j :: 0 <= i < j < |s| ==> EntriesOf(s)[i].key != EntriesOf(s)[j].key;
  }

  ghost function ToFront(s: seq<ListNode>, i: nat): seq<ListNode>
    requires i < |s|
  {
    [s[i]] + s[..i] + s[i + 1..]
  }

  ghost function Without(s: seq<ListNode>, i: nat): seq<ListNode>
    requires i < |s|
  {
    s[..i] + s[i + 1..]
  }

  ghost predicate Within(s: seq<ListNode>, r: set<object>) {
    forall i :: 0 <= i < |s| ==> s[i] in r
  }

  lemma SpliceWithin(s: seq<ListNode>, i: nat, r: set<object>)
    requires i < |s| && Within(s, r)
    ensures Within(ToFront(s, i), r) && Within(Without(s, i), r)
  {
  }

  lemma {:induction false} FrontPermutes(s: seq<ListNode>, i: nat)
    requires i < |s|
    ensures multiset(EntriesOf(s)) == multiset(EntriesOf(ToFront(s, i)))
  {
    var a, x, b := EntriesOf(s[..i]), [Entry(s[i].key, s[i].data)], EntriesOf(s[i + 1..]);
    assert EntriesOf(s) == a + x + b;
    assert EntriesOf(ToFront(s, i)) == x + a + b;
  }

  lemma {:induction false} WithoutDict(s: seq<ListNode>, i: nat)
    requires i < |s| && Unique(EntriesOf(s))
    ensures Unique(EntriesOf(Without(s, i)))
    ensures Dict(EntriesOf(Without(s, i))) == Dict(EntriesOf(s)) - {s[i].key}
  {
    var a, e, b := EntriesOf(s[..i]), Entry(s[i].key, s[i].data), EntriesOf(s[i + 1..]);
    assert EntriesOf(s) == a + [e] + b;
    assert EntriesOf(Without(s, i)) == a + b;
    UniqueWithout(a, e, b);
    DictInsert(a, e, b);
  }

  lemma {:induction false} WithDict(s: seq<ListNode>, x: ListNode)
    requires Unique(EntriesOf(s)) && x.key !in Dict(EntriesOf(s))
    ensures Unique(EntriesOf([x] + s))
    ensures Dict(EntriesOf([x] + s)) == Dict(EntriesOf(s))[x.key := x.data]
  {
    DictKeys(EntriesOf(s));
    var e := Entry(x.key, x.data);
    assert EntriesOf([x] + s) == [] + [e] + EntriesOf(s);
    assert EntriesOf(s) == [] + EntriesOf(s);
    DictInsert([], e, EntriesOf(s));
  }

  class ListBucket {
    var head: ListNode?          // bucket_table[bucket]
    var size: nat                // bucket_size[bucket], a 32-bit counter
    ghost var nodes: seq<ListNode>
    ghost var contents: map<Key, Data>
    ghost var Repr: set<object>

    constructor ()
      ensures Valid() && fresh(Repr) && contents == map[]
    {
      head, size := null, 0;
      nodes, contents, Repr := [], map[], {this};
    }

    ghost function Entries(): seq<Entry>
      reads this
    {
      EntriesOf(nodes)
    }

    ghost predicate Valid()
      reads this, Repr
      ensures Valid() ==> this in Repr
    {
      && this in Repr && Within(nodes, Repr)
      && Linked(nodes, head)
      && Unique(Entries())
      && size == |nodes| % WORD
      && contents == Dict(Entries())
    }

    // lhi_lookup_list
    method Lookup(cmp: Cmp, key: Key) returns (code: Code)
      requires Valid() && DecidesEquality(cmp)
      ensures code == if key in contents then Success else ErrNoKey
    {
      DictKeys(Entries());
      var b := head;
      ghost var i := 0;
      while b != null
        invariant i <= |nodes| && b == At(nodes, i)
        invariant forall j :: 0 <= j < i ==> nodes[j].key != key
        decreases |nodes| - i
      {
        if cmp(key, b.key) == 0 {
          assert Entries()[i].key == key;
          return Success;
        }
        b := b.next;
        i := i + 1;
      }
      return ErrNoKey;
    }

    // lhi_get_list for LIST
    method Get(cmp: Cmp, key: Key) returns (code: Code, data: Option<Data>)
      requires Valid() && DecidesEquality(cmp)
      ensures code == if key in contents then Success else ErrNoKey
      ensures data == if key in contents then Some(contents[key]) else None
    {
      DictKeys(Entries());
      var b := head;
      ghost var i := 0;
      while b != null
        invariant i <= |nodes| && b == At(nodes, i)
        invariant forall j :: 0 <= j < i ==> nodes[j].key != key
        decreases |nodes| - i
      {
        if cmp(key, b.key) == 0 {
          DictAt(Entries(), i);
          return Success, Some(b.data);
        }
        b := b.next;
        i := i + 1;
      }
      return ErrNoKey, None;
    }

    // The search of lhi_get_list for LIST_MTF and of lhi_remove_list, with p one
    // node behind b.
    method Find(cmp: Cmp, key: Key) returns (p: ListNode?, b: ListNode?, ghost i: nat)
      requires Valid() && DecidesEquality(cmp)
      ensures b == null ==> key !in contents
      ensures b != null ==> i < |nodes| && b == nodes[i] && p == (if i == 0 then b else nodes[i - 1])
      ensures b != null ==> b.key == key && key in contents && contents[key] == b.data
    {
      DictKeys(Entries());
      p, b, i := head, head, 0;
      while b != null
        invariant i <= |nodes| && b == At(nodes, i) && p == if i == 0 then head else nodes[i - 1]
        invariant forall j :: 0 <= j < i ==> nodes[j].key != key
        decreases |nodes| - i
      {
        if cmp(key, b.key) == 0 {
          DictAt(Entries(), i);
          return;
        }
        p := b;
        b := b.next;
        i := i + 1;
      }
    }

    // lhi_get_list for LIST_MTF: the node found moves to the front
    method GetMoveToFront(cmp: Cmp, key: Key) returns (code: Code, data: Option<Data>)
      requires Valid() && DecidesEquality(cmp)
      modifies Repr
      ensures Valid() && Repr == old(Repr) && size == old(size)
      ensures code == if key in old(contents) then Success else ErrNoKey
      ensures data == if key in old(contents) then Some(old(contents)[key]) else None
      ensures multiset(Entries()) == multiset(old(Entries())) && contents == old(contents)
      ensures code == ErrNoKey ==> nodes == old(nodes)
      ensures code == Success ==> nodes[0].key == key
    {
      var p, b;
      ghost var i;
      p, b, i := Find(cmp, key);
      if b == null {
        return ErrNoKey, None;
      }
      UniqueNoRepeat(nodes);
      if p != b {
        FrontPermutes(nodes, i);
        SpliceWithin(nodes, i, Repr);
        Reordered(EntriesOf(nodes), EntriesOf(ToFront(nodes, i)));
        MoveToFront(p, b, i);
      }
      return Success, Some(b.data);
    }

    // lib/hi_list.c, lines 248 to 250: b, the successor of p, becomes the first
    // node.
    method MoveToFront(p: ListNode, b: ListNode, ghost i: nat)
      requires Linked(nodes, head) && NoRepeat(nodes)
      requires 0 < i < |nodes| && p == nodes[i - 1] && b == nodes[i]
      modifies this`head, this`nodes, p, b
      ensures nodes == ToFront(old(nodes), i) && Linked(nodes, head)
    {
      ghost var s := nodes;
      p.next := b.next;
      b.next := head;
      head := b;
      nodes := ToFront(s, i);
    }

    // lhi_insert_list: the caller has looked the key up
    method Insert(key: Key, data: Data)
      requires Valid() && key !in contents
      modifies this
      ensures Valid() && fresh(Repr - old(Repr))
      ensures contents == old(contents)[key := data]
    {
      var obj := new ListNode(key, data, head);
      WithDict(nodes, obj);
      CountUp(|nodes|, |nodes| + 1);
      head := obj;
      size := Inc32(size);
      nodes, Repr := [obj] + nodes, Repr + {obj};
      contents := contents[key := data];
    }

    // lhi_remove_list
    method Remove(cmp: Cmp, key: Key) returns (code: Code, data: Option<Data>)
      requires Valid() && DecidesEquality(cmp)
      modifies Repr
      ensures Valid() && Repr == old(Repr)
      ensures code == if key in old(contents) then Success else ErrNoKey
      ensures data == if key in old(contents) then Some(old(contents)[key]) else None
      ensures code == ErrNoKey ==> nodes == old(nodes) && size == old(size)
      ensures contents == old(contents) - {key}
    {
      var p, b;
      ghost var i;
      p, b, i := Find(cmp, key);
      if b == null {
        return ErrNoKey, None;
      }
      WithoutDict(nodes, i);
      SpliceWithin(nodes, i, Repr);
      UniqueNoRepeat(nodes);
      CountDown(|nodes|, |nodes| - 1);
      Unlink(p, b, i);
      size := Dec32(size);
      contents := contents - {key};
      return Success, Some(b.data);
    }

    // lib/hi_list.c, lines 149 to 152
    method Unlink(p: ListNode, b: ListNode, ghost i: nat)
      requires Linked(nodes, head) && NoRepeat(nodes)
      requires i < |nodes| && b == nodes[i] && p == if i == 0 then b else nodes[i - 1]
      modifies this`head, this`nodes, p
      ensures nodes == Without(old(nodes), i) && Linked(nodes, head)
    {
      ghost var s := nodes;
      if p == b {
        head := p.next;
      } else {
        p.next := b.next;
      }
      nodes := Without(s, i);
    }

    // lhi_list_bucket_to_array.  The snapshot has as many slots as the counter
    // says; the loop stays within them when the counter has not wrapped.
    method ToArray() returns (code: Code, a: array<Option<Entry>>)
      requires Valid() && (|contents| % WORD == 0 || |contents| < WORD)
      ensures fresh(a)
      ensures code == if |contents| % WORD == 0 then ErrNoData else Success
      ensures code == Success ==> a.Length == |contents| && Snapshot(a[..], contents)
    {
      DictSize(Entries());
      a := new Option<Entry>[size](_ => None);
      if size == 0 {
        return ErrNoData, a;
      }
      var b := head;
      var i := 0;
      while b != null
        invariant i <= |nodes| && b == At(nodes, i)
        invariant Linked(nodes, head)
        invariant forall j :: 0 <= j < i ==> a[j] == Some(Entries()[j])
        decreases |nodes| - i
      {
        a[i] := Some(Entry(b.key, b.data));
        b := b.next;
        i := i + 1;
      }
      assert Values(a[..]) == Entries();
      code := Success;
    }
  }
}
