// The tables of the collision engines: one bucket for each hash value.

module Tables {
  import opened Counters
  import opened Keys
  import opened Entries
  import opened TableSpec
  import opened RbTree
  import opened ListEngine
  import opened ArrayEngine

  class ListTable {
    const lists: seq<ListBucket>
    ghost var Repr: set<object>

    // lhi_create_eng_list
    constructor (n: nat)
      ensures Valid() && fresh(Repr)
      ensures |lists| == n && Buckets() == Empty(n)
    {
      var ts: seq<ListBucket> := [];
      ghost var r: set<object> := {};
      for i := 0 to n
        invariant |ts| == i && fresh(r)
        invariant forall j :: 0 <= j < i ==> ts[j] in r && ts[j].Repr <= r
        invariant forall j :: 0 <= j < i ==> ts[j].Valid() && ts[j].contents == map[]
        invariant forall j, k :: 0 <= j < k < i ==> ts[j].Repr !! ts[k].Repr
      {
        hide ListBucket.Valid;
        var t := new ListBucket();
        ts := ts + [t];
        r := r + t.Repr;
      }
      lists := ts;
      Repr := r + {this};
    }

    ghost predicate Valid()
      reads this, Repr
      ensures Valid() ==> this in Repr
    {
      && this in Repr
      && (forall i :: 0 <= i < |lists| ==> lists[i] in Repr && lists[i].Repr <= Repr && this !in lists[i].Repr)
      && (forall i :: 0 <= i < |lists| ==> lists[i].Valid())
      && (forall i, j :: 0 <= i < j < |lists| ==> lists[i].Repr !! lists[j].Repr)
    }

    ghost function Buckets(): (bs: Buckets)
      reads this, lists
      ensures |bs| == |lists| && forall i :: 0 <= i < |lists| ==> bs[i] == lists[i].contents
    {
      seq(|lists|, i requires 0 <= i < |lists| reads lists => lists[i].contents)
    }

    method Insert(b: nat, key: Key, data: Data)
      requires Valid() && b < |lists| && key !in Buckets()[b]
      modifies Repr
      ensures Valid() && fresh(Repr - old(Repr))
      ensures Buckets() == old(Buckets())[b := old(Buckets())[b][key := data]]
    {
      hide ListBucket.Valid;
      lists[b].Insert(key, data);
      forall i | 0 <= i < |lists| && i != b
        ensures lists[i].Valid() && lists[i].Repr == old(lists[i].Repr) && lists[i].contents == old(lists[i].contents)
      {
        assert old(lists[i].Repr) !! old(lists[b].Repr);
      }
      assert forall i :: 0 <= i < |lists| && i != b ==> Buckets()[i] == old(Buckets())[i];
      Repr := Repr + lists[b].Repr;
    }

    method Remove(cmp: Cmp, b: nat, key: Key) returns (code: Code, data: Option<Data>)
      requires Valid() && DecidesEquality(cmp) && b < |lists|
      modifies Repr
      ensures Valid() && fresh(Repr - old(Repr))
      ensures Answer(code, data) == Reply(old(Buckets())[b], Op.Remove(key))
      ensures Buckets() == old(Buckets())[b := old(Buckets())[b] - {key}]
    {
      hide ListBucket.Valid;
      code, data := lists[b].Remove(cmp, key);
      forall i | 0 <= i < |lists| && i != b
        ensures lists[i].Valid() && lists[i].Repr == old(lists[i].Repr) && lists[i].contents == old(lists[i].contents)
      {
        assert old(lists[i].Repr) !! old(lists[b].Repr);
      }
      assert forall i :: 0 <= i < |lists| && i != b ==> Buckets()[i] == old(Buckets())[i];
      Repr := Repr + lists[b].Repr;
    }

    method GetMoveToFront(cmp: Cmp, b: nat, key: Key) returns (code: Code, data: Option<Data>)
      requires Valid() && DecidesEquality(cmp) && b < |lists|
      modifies Repr
      ensures Valid() && fresh(Repr - old(Repr))
      ensures Answer(code, data) == Reply(old(Buckets())[b], Op.Get(key))
      ensures Buckets() == old(Buckets())
    {
      hide ListBucket.Valid;
      code, data := lists[b].GetMoveToFront(cmp, key);
      forall i | 0 <= i < |lists| && i != b
        ensures lists[i].Valid() && lists[i].Repr == old(lists[i].Repr) && lists[i].contents == old(lists[i].contents)
      {
        assert old(lists[i].Repr) !! old(lists[b].Repr);
      }
      assert forall i :: 0 <= i < |lists| && i != b ==> Buckets()[i] == old(Buckets())[i];
      Repr := Repr + lists[b].Repr;
    }

    method Get(cmp: Cmp, b: nat, key: Key) returns (code: Code, data: Option<Data>)
      requires Valid() && DecidesEquality(cmp) && b < |lists|
      ensures Answer(code, data) == Reply(Buckets()[b], Op.Get(key))
    {
      code, data := lists[b].Get(cmp, key);
    }

    method Lookup(cmp: Cmp, b: nat, key: Key) returns (code: Code)
      requires Valid() && DecidesEquality(cmp) && b < |lists|
      ensures code == if key in Buckets()[b] then Success else ErrNoKey
    {
      code := lists[b].Lookup(cmp, key);
    }

    method ToArray(b: nat) returns (code: Code, a: array<Option<Entry>>)
      requires Valid() && b < |lists| && |Buckets()[b]| < WORD
      ensures fresh(a)
      ensures code == if Buckets()[b] == map[] then ErrNoData else Success
      ensures code == Success ==> a.Length == |Buckets()[b]| && Snapshot(a[..], Buckets()[b])
    {
      code, a := lists[b].ToArray();
    }
  }

  class ArrayTable {
    const arrays: seq<ArrayBucket>
    ghost var Repr: set<object>

    // lhi_create_eng_array
    constructor (capacity: nat, n: nat)
      requires 0 < capacity < WORD
      ensures Valid() && fresh(Repr)
      ensures |arrays| == n && Buckets() == Empty(n) && Gapless()
    {
      hide ArrayBucket.Valid, ArrayBucket.Compact;
      var ts: seq<ArrayBucket> := [];
      ghost var r: set<object> := {};
      for i := 0 to n
        invariant |ts| == i && fresh(r)
        invariant forall j :: 0 <= j < i ==> ts[j] in r && ts[j].Repr <= r
        invariant forall j :: 0 <= j < i ==> ts[j].Valid() && ts[j].Compact() && ts[j].contents == map[]
        invariant forall j, k :: 0 <= j < k < i ==> ts[j].Repr !! ts[k].Repr
      {
        var t := new ArrayBucket(capacity);
        ts := ts + [t];
        r := r + t.Repr;
      }
      arrays := ts;
      Repr := r + {this};
    }

    ghost predicate Valid()
      reads this, Repr
      ensures Valid() ==> this in Repr
    {
      && this in Repr
      && (forall i :: 0 <= i < |arrays| ==> arrays[i] in Repr && arrays[i].Repr <= Repr && this !in arrays[i].Repr)
      && (forall i :: 0 <= i < |arrays| ==> arrays[i].Valid())
      && (forall i, j :: 0 <= i < j < |arrays| ==> arrays[i].Repr !! arrays[j].Repr)
    }

    // No bucket has a hole among its first slot_size slots.
    ghost predicate Gapless()
      requires Valid()
      reads this, Repr
    {
      forall i :: 0 <= i < |arrays| ==> arrays[i].Compact()
    }

    ghost function Buckets(): (bs: Buckets)
      reads this, arrays
      ensures |bs| == |arrays| && forall i :: 0 <= i < |arrays| ==> bs[i] == arrays[i].contents
    {
      seq(|arrays|, i requires 0 <= i < |arrays| reads arrays => arrays[i].contents)
    }

    method Insert(cmp: Cmp, b: nat, key: Key, data: Data) returns (code: Code)
      requires Valid() && DecidesEquality(cmp) && b < |arrays| && arrays[b].MayGrow()
      modifies Repr
      ensures Valid() && fresh(Repr - old(Repr))
      ensures code == if key in old(Buckets())[b] then ErrDupKey else Success
      ensures Buckets() == if code == Success then old(Buckets())[b := old(Buckets())[b][key := data]] else old(Buckets())
      ensures old(Gapless()) ==> Gapless()
    {
      hide ArrayBucket.Valid, ArrayBucket.Compact;
      code := arrays[b].Insert(cmp, key, data);
      forall i | 0 <= i < |arrays| && i != b
        ensures arrays[i].Valid() && arrays[i].Repr == old(arrays[i].Repr) && arrays[i].contents == old(arrays[i].contents)
        ensures arrays[i].Compact() == old(arrays[i].Compact())
      {
        assert old(arrays[i].Repr) !! old(arrays[b].Repr);
      }
      assert forall i :: 0 <= i < |arrays| && i != b ==> Buckets()[i] == old(Buckets())[i];
      Repr := Repr + arrays[b].Repr;
    }

    method Remove(cmp: Cmp, b: nat, key: Key) returns (code: Code, data: Option<Data>)
      requires Valid() && DecidesEquality(cmp) && b < |arrays|
      modifies Repr
      ensures Valid() && fresh(Repr - old(Repr))
      ensures Answer(code, data) == Reply(old(Buckets())[b], Op.Remove(key))
      ensures Buckets() == old(Buckets())[b := old(Buckets())[b] - {key}]
    {
      hide ArrayBucket.Valid;
      code, data := arrays[b].Remove(cmp, key);
      forall i | 0 <= i < |arrays| && i != b
        ensures arrays[i].Valid() && arrays[i].Repr == old(arrays[i].Repr) && arrays[i].contents == old(arrays[i].contents)
      {
        assert old(arrays[i].Repr) !! old(arrays[b].Repr);
      }
      assert forall i :: 0 <= i < |arrays| && i != b ==> Buckets()[i] == old(Buckets())[i];
      Repr := Repr + arrays[b].Repr;
    }

    method Get(cmp: Cmp, b: nat, key: Key) returns (code: Code, data: Option<Data>)
      requires Valid() && DecidesEquality(cmp) && b < |arrays|
      ensures Answer(code, data) == Reply(Buckets()[b], Op.Get(key))
    {
      code, data := arrays[b].Get(cmp, key);
    }

    method ToArray(b: nat) returns (code: Code, a: array<Option<Entry>>)
      requires Valid() && b < |arrays|
      ensures fresh(a)
      ensures code == if Buckets()[b] == map[] then ErrNoData else Success
      ensures code == Success ==> a.Length == |Buckets()[b]| && (Snapshot(a[..], Buckets()[b]) <==> arrays[b].Compact())
    {
      code, a := arrays[b].ToArray();
    }
  }

  class TreeTable {
    const trees: seq<RbBucket>
    ghost var Repr: set<object>

    // lhi_create_eng_rbtree
    constructor (ghost cmp: Cmp, n: nat)
      ensures Valid(cmp) && fresh(Repr)
      ensures |trees| == n && Buckets() == Empty(n)
    {
      hide RbBucket.Valid;
      var ts: seq<RbBucket> := [];
      ghost var r: set<object> := {};
      for i := 0 to n
        invariant |ts| == i && fresh(r)
        invariant forall j :: 0 <= j < i ==> ts[j] in r && ts[j].Repr <= r
        invariant forall j :: 0 <= j < i ==> ts[j].Valid(cmp) && ts[j].contents == map[]
        invariant forall j, k :: 0 <= j < k < i ==> ts[j].Repr !! ts[k].Repr
      {
        var t := new RbBucket(cmp);
        ts := ts + [t];
        r := r + t.Repr;
      }
      trees := ts;
      Repr := r + {this};
    }

    ghost predicate Valid(cmp: Cmp)
      reads this, Repr
      ensures Valid(cmp) ==> this in Repr
    {
      && this in Repr
      && (forall i :: 0 <= i < |trees| ==> trees[i] in Repr && trees[i].Repr <= Repr && this !in trees[i].Repr)
      && (forall i :: 0 <= i < |trees| ==> trees[i].Valid(cmp))
      && (forall i, j :: 0 <= i < j < |trees| ==> trees[i].Repr !! trees[j].Repr)
    }

    ghost function Buckets(): (bs: Buckets)
      reads this, trees
      ensures |bs| == |trees| && forall i :: 0 <= i < |trees| ==> bs[i] == trees[i].contents
    {
      seq(|trees|, i requires 0 <= i < |trees| reads trees => trees[i].contents)
    }

    method Insert(cmp: Cmp, b: nat, key: Key, data: Data) returns (code: Code)
      requires Valid(cmp) && TotalOrder(cmp) && b < |trees|
      modifies Repr
      ensures Valid(cmp) && fresh(Repr - old(Repr))
      ensures code == if key in old(Buckets())[b] then ErrDupKey else Success
      ensures Buckets() == if code == Success then old(Buckets())[b := old(Buckets())[b][key := data]] else old(Buckets())
    {
      hide RbBucket.Valid;
      code := trees[b].Insert(cmp, key, data);
      forall i | 0 <= i < |trees| && i != b
        ensures trees[i].Valid(cmp) && trees[i].Repr == old(trees[i].Repr) && trees[i].contents == old(trees[i].contents)
      {
        assert old(trees[i].Repr) !! old(trees[b].Repr);
      }
      assert forall i :: 0 <= i < |trees| && i != b ==> Buckets()[i] == old(Buckets())[i];
      Repr := Repr + trees[b].Repr;
    }

    method Remove(cmp: Cmp, b: nat, key: Key) returns (code: Code, data: Option<Data>)
      requires Valid(cmp) && TotalOrder(cmp) && b < |trees|
      modifies Repr
      ensures Valid(cmp) && fresh(Repr - old(Repr))
      ensures Answer(code, data) == Reply(old(Buckets())[b], Op.Remove(key))
      ensures Buckets() == old(Buckets())[b := old(Buckets())[b] - {key}]
    {
      hide RbBucket.Valid;
      code, data := trees[b].Remove(cmp, key);
      forall i | 0 <= i < |trees| && i != b
        ensures trees[i].Valid(cmp) && trees[i].Repr == old(trees[i].Repr) && trees[i].contents == old(trees[i].contents)
      {
        assert old(trees[i].Repr) !! old(trees[b].Repr);
      }
      assert forall i :: 0 <= i < |trees| && i != b ==> Buckets()[i] == old(Buckets())[i];
      Repr := Repr + trees[b].Repr;
    }

    method Get(cmp: Cmp, b: nat, key: Key) returns (code: Code, data: Option<Data>)
      requires Valid(cmp) && TotalOrder(cmp) && b < |trees|
      ensures Answer(code, data) == Reply(Buckets()[b], Op.Get(key))
    {
      ghost var compared;
      code, data, compared := trees[b].Get(cmp, key);
    }

    method ToArray(cmp: Cmp, b: nat) returns (code: Code, a: array<Option<Entry>>)
      requires Valid(cmp) && b < |trees| && DecidesEquality(cmp) && |Buckets()[b]| < WORD
      ensures fresh(a)
      ensures code == if Buckets()[b] == map[] then ErrNoData else Success
      ensures code == Success ==> a.Length == |Buckets()[b]| && Snapshot(a[..], Buckets()[b])
    {
      hide RbBucket.Valid, Buckets, Snapshot;
      assert |trees[b].contents| % WORD == |trees[b].contents|;
      code, a := trees[b].ToArray(cmp);
    }
  }
}
