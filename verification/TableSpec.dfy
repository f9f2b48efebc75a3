// What a hash table stands for: the buckets as maps, their union, and the
// answers of insert, get and remove on one finite map.

module TableSpec {
  import opened Keys

  type Hash = Key -> nat
  type Buckets = seq<map<Key, Data>>

  ghost function Empty(n: nat): Buckets {
    seq(n, _ => map[])
  }

  // Every key is in the bucket of its hash modulo the table size.
  ghost predicate Placed(bs: Buckets, hash: Hash) {
    forall i, k :: 0 <= i < |bs| && k in bs[i] ==> hash(k) % |bs| == i
  }

  ghost predicate Disjoint(bs: Buckets) {
    forall i, j, k :: 0 <= i < |bs| && 0 <= j < |bs| && k in bs[i] && k in bs[j] ==> i == j
  }

  ghost function Union(bs: Buckets): map<Key, Data> {
    if bs == [] then map[] else bs[0] + Union(bs[1..])
  }

  ghost function TotalSize(bs: Buckets): nat {
    if bs == [] then 0 else |bs[0]| + TotalSize(bs[1..])
  }

  lemma {:induction false} UnionKeys(bs: Buckets)
    ensures forall k :: k in Union(bs) <==> exists i :: 0 <= i < |bs| && k in bs[i]
  {
    if bs == [] {
    } else {
      UnionKeys(bs[1..]);
      forall k
        ensures k in Union(bs) <==> exists i :: 0 <= i < |bs| && k in bs[i]
      {
        if k in Union(bs[1..]) {
          var i :| 0 <= i < |bs[1..]| && k in bs[1..][i];
          assert k in bs[i + 1];
        }
        if i :| 0 <= i < |bs| && k in bs[i] && i > 0 {
          assert k in bs[1..][i - 1];
        }
      }
    }
  }

  lemma {:induction false} UnionEmpty(bs: Buckets)
    ensures Union(bs) == map[] <==> forall i :: 0 <= i < |bs| ==> bs[i] == map[]
  {
    UnionKeys(bs);
    if Union(bs) == map[] {
      forall i | 0 <= i < |bs|
        ensures bs[i] == map[]
      {
        assert forall k :: k in bs[i] ==> k in Union(bs);
      }
    }
  }

  lemma DisjointTail(bs: Buckets)
    requires Disjoint(bs) && bs != []
    ensures Disjoint(bs[1..]) && forall k :: k in bs[0] ==> k !in Union(bs[1..])
  {
    UnionKeys(bs[1..]);
    assert forall i :: 0 <= i < |bs[1..]| ==> bs[1..][i] == bs[i + 1];
  }

  lemma {:induction false} UnionAt(bs: Buckets, i: nat, k: Key)
    requires Disjoint(bs) && i < |bs| && k in bs[i]
    ensures k in Union(bs) && Union(bs)[k] == bs[i][k]
  {
    DisjointTail(bs);
    if i == 0 {
    } else {
      assert bs[1..][i - 1] == bs[i];
      UnionAt(bs[1..], i - 1, k);
    }
  }

  lemma {:induction false} UnionSize(bs: Buckets)
    requires Disjoint(bs)
    ensures |Union(bs)| == TotalSize(bs)
  {
    if bs == [] {
    } else {
      DisjointTail(bs);
      UnionSize(bs[1..]);
      assert Union(bs).Keys == bs[0].Keys + Union(bs[1..]).Keys;
    }
  }

  lemma {:induction false} BucketBound(bs: Buckets, i: nat)
    requires Disjoint(bs) && i < |bs|
    ensures |bs[i]| <= |Union(bs)|
  {
    forall k | k in bs[i]
      ensures k in Union(bs)
    {
      UnionAt(bs, i, k);
    }
    SubsetSize(bs[i].Keys, Union(bs).Keys);
  }

  lemma {:induction false} SubsetSize(a: set<Key>, b: set<Key>)
    requires a <= b
    ensures |a| <= |b|
  {
    assert b == a + (b - a);
  }

  lemma PlacedDisjoint(bs: Buckets, hash: Hash)
    requires Placed(bs, hash)
    ensures Disjoint(bs)
  {
    forall i, j, k | 0 <= i < |bs| && 0 <= j < |bs| && k in bs[i] && k in bs[j]
      ensures i == j
    {
      assert hash(k) % |bs| == i;
      assert hash(k) % |bs| == j;
    }
  }

  // Looking a key up in its bucket is looking it up in the whole table.
  lemma {:induction false} LookupHome(bs: Buckets, hash: Hash, k: Key)
    requires Placed(bs, hash) && bs != []
    ensures var b := hash(k) % |bs|;
      (k in Union(bs) <==> k in bs[b]) && (k in bs[b] ==> Union(bs)[k] == bs[b][k])
  {
    UnionKeys(bs);
    PlacedDisjoint(bs, hash);
    if k in bs[hash(k) % |bs|] {
      UnionAt(bs, hash(k) % |bs|, k);
    }
  }

  // Changing a key in its bucket changes it in the whole table and nowhere else.
  lemma {:induction false} InsertHome(bs: Buckets, hash: Hash, k: Key, d: Data)
    requires Placed(bs, hash) && bs != []
    ensures var b := hash(k) % |bs|; var bs' := bs[b := bs[b][k := d]];
      Placed(bs', hash) && Union(bs') == Union(bs)[k := d]
  {
    var b := hash(k) % |bs|;
    var bs' := bs[b := bs[b][k := d]];
    Agree(bs, bs', hash, b, k);
    LookupHome(bs', hash, k);
  }

  lemma {:induction false} RemoveHome(bs: Buckets, hash: Hash, k: Key)
    requires Placed(bs, hash) && bs != []
    ensures var b := hash(k) % |bs|; var bs' := bs[b := bs[b] - {k}];
      Placed(bs', hash) && Union(bs') == Union(bs) - {k}
  {
    var b := hash(k) % |bs|;
    var bs' := bs[b := bs[b] - {k}];
    Agree(bs, bs', hash, b, k);
    LookupHome(bs', hash, k);
  }

  lemma {:induction false} Agree(bs: Buckets, bs': Buckets, hash: Hash, b: nat, k: Key)
    requires Placed(bs, hash) && Placed(bs', hash) && |bs| == |bs'| && b < |bs| && bs' == bs[b := bs'[b]]
    requires forall j :: j != k ==> (j in bs[b] <==> j in bs'[b]) && (j in bs[b] ==> bs[b][j] == bs'[b][j])
    ensures forall j :: j != k ==>
      (j in Union(bs) <==> j in Union(bs')) && (j in Union(bs) ==> Union(bs)[j] == Union(bs')[j])
  {
    forall j | j != k
      ensures (j in Union(bs) <==> j in Union(bs')) && (j in Union(bs) ==> Union(bs)[j] == Union(bs')[j])
    {
      LookupHome(bs, hash, j);
      LookupHome(bs', hash, j);
    }
  }

  // ---------- operations on the finite map ----------

  datatype Op = Insert(key: Key, data: Data) | Get(key: Key) | Remove(key: Key)

  datatype Answer = Answer(code: Code, data: Option<Data>)

  ghost function Reply(m: map<Key, Data>, op: Op): Answer {
    match op
    case Insert(k, _) => Answer(if k in m then ErrDupKey else Success, None)
    case Get(k) => if k in m then Answer(Success, Some(m[k])) else Answer(ErrNoKey, None)
    case Remove(k) => if k in m then Answer(Success, Some(m[k])) else Answer(ErrNoKey, None)
  }

  ghost function After(m: map<Key, Data>, op: Op): map<Key, Data> {
    match op
    case Insert(k, d) => if k in m then m else m[k := d]
    case Get(_) => m
    case Remove(k) => m - {k}
  }

  ghost function Replies(m: map<Key, Data>, ops: seq<Op>): seq<Answer>
    decreases ops
  {
    if ops == [] then [] else [Reply(m, ops[0])] + Replies(After(m, ops[0]), ops[1..])
  }

  ghost function Final(m: map<Key, Data>, ops: seq<Op>): map<Key, Data>
    decreases ops
  {
    if ops == [] then m else Final(After(m, ops[0]), ops[1..])
  }
}
