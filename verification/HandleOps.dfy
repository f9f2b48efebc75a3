// The public operations of a hash table (lib/hi_operations.c), whatever its
// collision engine.

module HandleOps {
  import opened Counters
  import opened Keys
  import opened Entries
  import opened TableSpec
  import opened Tables

  datatype Engine = List | ListMtf | Array | RbTree

  // What lhi_transform_hndl_2_hndl copies, apart from the table size.
  datatype Settings = Settings(
    engine: Engine,
    rehashAuto: bool,
    threshold: real,
    arraySize: nat,
    hash: Hash,
    cmp: Cmp)

  ghost predicate Usable(s: Settings) {
    && DecidesEquality(s.cmp)
    && (s.engine.RbTree? ==> TotalOrder(s.cmp))
    && (s.engine.Array? ==> 0 < s.arraySize < WORD)
  }

  // hi_handle_t
  class Handle {
    var cfg: Settings
    var tableSize: nat
    var noObjects: nat           // a 32-bit counter
    var lists: ListTable?        // the union eng
    var arrays: ArrayTable?
    var trees: TreeTable?
    ghost var Repr: set<object>

    // An empty handle, as hi_create and hi_rehash build it.
    constructor (cfg: Settings, tableSize: nat)
      requires Usable(cfg) && 0 < tableSize < WORD
      ensures Valid() && fresh(Repr)
      ensures this.cfg == cfg && this.tableSize == tableSize
      ensures Contents() == map[] && Gapless()
    {
      hide ListTable.Valid, ArrayTable.Valid, TreeTable.Valid, TotalOrder, DecidesEquality, Union;
      hide ListTable.Buckets, ArrayTable.Buckets, TreeTable.Buckets, ArrayTable.Gapless, Placed, Empty, Valid;
      this.cfg, this.tableSize, noObjects := cfg, tableSize, 0;
      lists, arrays, trees := null, null, null;
      Repr := {this};
      new;
      match cfg.engine {
        case List =>
          lists := new ListTable(tableSize);
          Repr := Repr + lists.Repr;
        case ListMtf =>
          lists := new ListTable(tableSize);
          Repr := Repr + lists.Repr;
        case Array =>
          arrays := new ArrayTable(cfg.arraySize, tableSize);
          Repr := Repr + arrays.Repr;
        case RbTree =>
          trees := new TreeTable(cfg.cmp, tableSize);
          Repr := Repr + trees.Repr;
      }
      assert Structured() && Buckets() == Empty(tableSize) && Gapless();
      EmptyIsValid();
    }

    lemma EmptyIsValid()
      requires 0 < tableSize < WORD && noObjects == 0 && Structured() && Buckets() == Empty(tableSize)
      ensures Valid() && Contents() == map[]
    {
      hide Structured, Buckets, Placed, Union;
      EmptyUnion(tableSize);
      EmptyPlaced(tableSize, cfg.hash);
    }

    ghost predicate Structured()
      reads this, Repr
      ensures Structured() ==> this in Repr
    {
      && this in Repr && Usable(cfg)
      && match cfg.engine {
           case List => lists != null && lists in Repr && lists.Repr <= Repr && this !in lists.Repr && lists.Valid()
           case ListMtf => lists != null && lists in Repr && lists.Repr <= Repr && this !in lists.Repr && lists.Valid()
           case Array => arrays != null && arrays in Repr && arrays.Repr <= Repr && this !in arrays.Repr && arrays.Valid()
           case RbTree => trees != null && trees in Repr && trees.Repr <= Repr && this !in trees.Repr && trees.Valid(cfg.cmp)
         }
    }

    ghost function Buckets(): Buckets
      requires Structured()
      reads this, Repr
    {
      match cfg.engine
      case List => lists.Buckets()
      case ListMtf => lists.Buckets()
      case Array => arrays.Buckets()
      case RbTree => trees.Buckets()
    }

    ghost predicate Valid()
      reads this, Repr
      ensures Valid() ==> this in Repr && Structured() && 0 < tableSize == |Buckets()|
      ensures Valid() ==> Usable(cfg) && tableSize < WORD && noObjects == |Contents()| % WORD
    {
      && Structured()
      && 0 < tableSize < WORD && |Buckets()| == tableSize
      && Placed(Buckets(), cfg.hash)
      && noObjects == |Union(Buckets())| % WORD
    }

    // No bucket of an ARRAY table has a hole among its first slot_size slots.
    ghost predicate Gapless()
      requires Structured()
      reads this, Repr
    {
      cfg.engine.Array? ==> arrays.Gapless()
    }

    // The finite map that the table stands for.
    ghost function Contents(): map<Key, Data>
      requires Structured()
      reads this, Repr
    {
      Union(Buckets())
    }

    // hi_get
    method Get(key: Key) returns (code: Code, data: Option<Data>)
      requires Valid()
      modifies Repr
      ensures Valid() && fresh(Repr - old(Repr))
      ensures Answer(code, data) == Reply(old(Contents()), Op.Get(key))
      ensures Buckets() == old(Buckets()) && Contents() == old(Contents()) && Gapless() == old(Gapless())
      ensures tableSize == old(tableSize) && cfg == old(cfg)
    {
      hide ListTable.Valid, ArrayTable.Valid, TreeTable.Valid, TotalOrder, DecidesEquality, Placed, Union;
      LookupHome(Buckets(), cfg.hash, key);
      var b := cfg.hash(key) % tableSize;
      match cfg.engine {
        case List => code, data := lists.Get(cfg.cmp, b, key);
        case ListMtf =>
          code, data := lists.GetMoveToFront(cfg.cmp, b, key);
          Repr := Repr + lists.Repr;
        case Array => code, data := arrays.Get(cfg.cmp, b, key);
        case RbTree => code, data := trees.Get(cfg.cmp, b, key);
      }
    }

    // The dispatch of hi_remove to the engine.
    method RemoveFrom(b: nat, key: Key) returns (code: Code, data: Option<Data>)
      requires Structured() && b < |Buckets()|
      modifies Repr
      ensures Structured() && fresh(Repr - old(Repr))
      ensures Answer(code, data) == Reply(old(Buckets())[b], Op.Remove(key))
      ensures Buckets() == old(Buckets())[b := old(Buckets())[b] - {key}]
      ensures tableSize == old(tableSize) && cfg == old(cfg) && noObjects == old(noObjects)
    {
      hide ListTable.Valid, ArrayTable.Valid, TreeTable.Valid, TotalOrder, DecidesEquality;
      match cfg.engine {
        case List =>
          code, data := lists.Remove(cfg.cmp, b, key);
          Repr := Repr + lists.Repr;
        case ListMtf =>
          code, data := lists.Remove(cfg.cmp, b, key);
          Repr := Repr + lists.Repr;
        case Array =>
          code, data := arrays.Remove(cfg.cmp, b, key);
          Repr := Repr + arrays.Repr;
        case RbTree =>
          code, data := trees.Remove(cfg.cmp, b, key);
          Repr := Repr + trees.Repr;
      }
    }

    // hi_remove
    method Remove(key: Key) returns (code: Code, data: Option<Data>)
      requires Valid()
      modifies Repr
      ensures Valid() && fresh(Repr - old(Repr))
      ensures Answer(code, data) == Reply(old(Contents()), Op.Remove(key))
      ensures Contents() == After(old(Contents()), Op.Remove(key))
      ensures tableSize == old(tableSize) && cfg == old(cfg)
    {
      hide Structured, Placed, Union, Gapless, Buckets;
      LookupHome(Buckets(), cfg.hash, key);
      RemoveHome(Buckets(), cfg.hash, key);
      ghost var m := Contents();
      code, data := RemoveFrom(cfg.hash(key) % tableSize, key);
      if code == Success {
        CountDown(|m|, |m - {key}|);
        Count(Dec32(noObjects));
      } else {
        assert m - {key} == m;
      }
    }

    // no_objects++ or no_objects--
    method Count(n: nat)
      requires Structured()
      modifies this`noObjects
      ensures Structured() && Buckets() == old(Buckets()) && noObjects == n && Gapless() == old(Gapless())
    {
      hide ListTable.Valid, ArrayTable.Valid, TreeTable.Valid, TotalOrder, DecidesEquality;
      noObjects := n;
    }

    // Doubling a full array bucket does not overflow its 32-bit capacity.
    ghost predicate MayGrow(key: Key)
      requires Valid()
      reads this, Repr
    {
      cfg.engine.Array? ==> arrays.arrays[cfg.hash(key) % tableSize].MayGrow()
    }

    // A bucket of less than 2^31 entries can always grow.
    lemma RoomToGrow(key: Key)
      requires Valid() && |Contents()| < WORD / 2
      ensures MayGrow(key)
    {
      var b := cfg.hash(key) % tableSize;
      PlacedDisjoint(Buckets(), cfg.hash);
      BucketBound(Buckets(), b);
      if cfg.engine.Array? {
        arrays.arrays[b].RoomToGrow();
      }
    }

    lemma OthersMayGrow(key: Key)
      requires Valid() && !cfg.engine.Array?
      ensures MayGrow(key)
    {
    }

    lemma AllMayGrow()
      requires Valid() && (cfg.engine.Array? ==> |Contents()| < WORD / 2)
      ensures forall k :: MayGrow(k)
    {
      hide Valid, Structured, MayGrow, Contents;
      forall k ensures MayGrow(k) {
        if cfg.engine.Array? {
          RoomToGrow(k);
        } else {
          OthersMayGrow(k);
        }
      }
    }

    // The dispatch of hi_insert to the engine.
    method InsertInto(b: nat, key: Key, data: Data) returns (code: Code)
      requires Structured() && b < |Buckets()|
      requires cfg.engine.Array? ==> arrays.arrays[b].MayGrow()
      requires cfg.engine.List? || cfg.engine.ListMtf? ==> key !in Buckets()[b]
      modifies Repr
      ensures Structured() && fresh(Repr - old(Repr))
      ensures code == if key in old(Buckets())[b] then ErrDupKey else Success
      ensures Buckets() == if code == Success then old(Buckets())[b := old(Buckets())[b][key := data]] else old(Buckets())
      ensures tableSize == old(tableSize) && cfg == old(cfg) && noObjects == old(noObjects)
      ensures old(Gapless()) ==> Gapless()
    {
      hide ListTable.Valid, ArrayTable.Valid, TreeTable.Valid, TotalOrder, DecidesEquality;
      hide ListTable.Buckets, ArrayTable.Buckets, TreeTable.Buckets, ArrayTable.Gapless;
      match cfg.engine {
        case List =>
          lists.Insert(b, key, data);
          Repr, code := Repr + lists.Repr, Success;
        case ListMtf =>
          lists.Insert(b, key, data);
          Repr, code := Repr + lists.Repr, Success;
        case Array =>
          code := arrays.Insert(cfg.cmp, b, key, data);
          Repr := Repr + arrays.Repr;
        case RbTree =>
          code := trees.Insert(cfg.cmp, b, key, data);
          Repr := Repr + trees.Repr;
      }
    }

    // The part of hi_insert after do_rehash.
    method InsertHere(key: Key, data: Data) returns (code: Code)
      requires Valid() && MayGrow(key)
      requires cfg.engine.List? || cfg.engine.ListMtf? ==> key !in Contents()
      modifies Repr
      ensures Valid() && fresh(Repr - old(Repr))
      ensures code == Reply(old(Contents()), Op.Insert(key, data)).code
      ensures Contents() == After(old(Contents()), Op.Insert(key, data))
      ensures tableSize == old(tableSize) && cfg == old(cfg)
      ensures old(Gapless()) ==> Gapless()
    {
      hide Structured, Placed, Union;
      LookupHome(Buckets(), cfg.hash, key);
      InsertHome(Buckets(), cfg.hash, key, data);
      ghost var m := Contents();
      code := InsertInto(cfg.hash(key) % tableSize, key, data);
      if code == Success {
        CountUp(|m|, |m[key := data]|);
        Count(Inc32(noObjects));
      }
    }

    // hi_lookup: only the list engines look here, the others report FAILURE and
    // find a duplicate when they insert
    method Lookup(key: Key) returns (code: Code)
      requires Valid()
      ensures code == Success ==> key in Contents()
      ensures cfg.engine.List? || cfg.engine.ListMtf? ==> (code == Success <==> key in Contents())
      ensures !(cfg.engine.List? || cfg.engine.ListMtf?) ==> code == ErrSystem
    {
      hide ListTable.Valid, ArrayTable.Valid, TreeTable.Valid, TotalOrder, DecidesEquality, Placed, Union;
      LookupHome(Buckets(), cfg.hash, key);
      if cfg.engine.List? || cfg.engine.ListMtf? {
        code := lists.Lookup(cfg.cmp, cfg.hash(key) % tableSize, key);
      } else {
        code := ErrSystem;
      }
    }

    // The load factor, an integer quotient, exceeds the threshold.
    ghost predicate Overloaded()
      reads this
    {
      tableSize > 0 && cfg.rehashAuto && (noObjects / tableSize) as real > cfg.threshold
    }

    // What rehashing asks of the table: complete snapshots, and buckets that can
    // take all entries.
    ghost predicate Rehashable()
      requires Structured()
      reads this, Repr
    {
      && Gapless() && (forall b :: 0 <= b < |Buckets()| ==> |Buckets()[b]| < WORD)
      && (cfg.engine.Array? ==> |Contents()| < WORD / 2)
    }

    // hi_insert.  An overloaded table doubles before the insert, also when a tree
    // or array engine then refuses a duplicate; the list engines find it before.
    method Insert(key: Key, data: Data) returns (code: Code)
      requires Valid() && MayGrow(key)
      requires Overloaded() ==> 2 * tableSize < WORD && Rehashable()
      modifies Repr
      ensures Valid() && fresh(Repr - old(Repr)) && cfg == old(cfg)
      ensures code == Reply(old(Contents()), Op.Insert(key, data)).code
      ensures Contents() == After(old(Contents()), Op.Insert(key, data))
      ensures tableSize ==
        if old(Overloaded() && Contents() != map[] && !((cfg.engine.List? || cfg.engine.ListMtf?) && key in Contents()))
        then 2 * old(tableSize) else old(tableSize)
      ensures old(Gapless()) ==> Gapless()
      decreases if cfg.rehashAuto then 1 else 0, if cfg.rehashAuto then 2 else 1
    {
      hide Structured, Placed, Union;
      code := Lookup(key);
      if code == Success {
        return ErrDupKey;
      }
      DoRehash();
      code := InsertHere(key, data);
    }

    // do_rehash
    method DoRehash()
      requires Valid()
      requires Overloaded() ==> 2 * tableSize < WORD && Rehashable()
      modifies Repr
      ensures Valid() && fresh(Repr - old(Repr)) && cfg == old(cfg)
      ensures Contents() == old(Contents()) && noObjects == old(noObjects)
      ensures !old(Overloaded()) ==> Buckets() == old(Buckets()) && Repr == old(Repr) && tableSize == old(tableSize)
      ensures forall k :: old(MayGrow(k)) ==> MayGrow(k)
      ensures old(Overloaded()) ==> tableSize == if Contents() == map[] then old(tableSize) else 2 * old(tableSize)
      ensures old(Gapless()) ==> Gapless()
      decreases if cfg.rehashAuto then 1 else 0, if cfg.rehashAuto then 1 else 0
    {
      hide Structured, Placed, Union;
      if !cfg.rehashAuto {
        return;
      }
      var lf := (noObjects / tableSize) as real;
      if lf > cfg.threshold {
        var ignored := Rehash(tableSize * 2);
        AllMayGrow();
      }
    }

    // hi_rehash: a fresh table of the new size takes all entries, in the order
    // of an iterator; an empty table stays as it is.
    method Rehash(newSize: nat) returns (code: Code)
      requires Valid() && Rehashable() && 0 < newSize < WORD
      modifies Repr
      ensures Valid() && fresh(Repr - old(Repr)) && cfg == old(cfg)
      ensures code == if old(Contents()) == map[] then ErrNoData else Success
      ensures Contents() == old(Contents()) && noObjects == old(noObjects)
      ensures tableSize == if code == Success then newSize else old(tableSize)
      ensures Gapless()
      decreases 1, 0
    {
      hide Structured, Valid, Iterator.Valid, Iterable, Rehashable, Gapless, Buckets, Contents, Placed, Union;
      RehashableIterables();
      var h := new Handle(cfg, newSize);
      var it;
      code, it := Iterator.Create(this);
      if code != Success {
        return;
      }
      Fill(h, it);
      Adopt(h);
    }

    // The new table is filled with its own rehashing switched off.
    method Fill(h: Handle, it: Iterator)
      requires h.Valid() && h.Gapless() && h.Contents() == map[]
      requires h.cfg.engine.Array? ==> |Union(it.pending)| < WORD / 2
      requires it.Valid() && it !in h.Repr && h !in it.handle.Repr && h.Repr !! it.handle.Repr
      requires it.handle !in h.Repr && (it.a != null ==> it.a !in h.Repr)
      modifies h.Repr, it
      ensures h.Valid() && fresh(h.Repr - old(h.Repr)) && h.cfg == old(h.cfg) && h.tableSize == old(h.tableSize)
      ensures h.Contents() == old(Union(it.pending)) && h.Gapless()
      decreases 0, 4
    {
      hide Structured, Valid, Iterator.Valid, Placed, Union;
      var auto := h.cfg.rehashAuto;
      h.SetAuto(false);
      Refill(h, it, Union(it.pending));
      h.SetAuto(auto);
    }

    lemma Iterables()
      requires Valid() && Gapless() && forall b :: 0 <= b < |Buckets()| ==> |Buckets()[b]| < WORD
      ensures forall b :: 0 <= b < tableSize ==> Iterable(b)
    {
    }

    lemma RehashableIterables()
      requires Valid() && Rehashable()
      ensures forall b :: 0 <= b < tableSize ==> Iterable(b)
      ensures cfg.engine.Array? ==> |Union(Buckets())| < WORD / 2
      ensures Contents() == Union(Buckets()) && Gapless()
    {
      Iterables();
    }

    // With less than 2^32 entries every bucket is counted right.
    lemma SmallBuckets()
      requires Valid() && |Contents()| < WORD
      ensures forall b :: 0 <= b < |Buckets()| ==> |Buckets()[b]| < WORD
    {
      PlacedDisjoint(Buckets(), cfg.hash);
      forall b | 0 <= b < |Buckets()|
        ensures |Buckets()[b]| < WORD
      {
        BucketBound(Buckets(), b);
      }
    }

    method SetAuto(auto: bool)
      requires Valid()
      modifies this`cfg
      ensures Valid() && Contents() == old(Contents()) && Repr == old(Repr)
      ensures cfg == old(cfg).(rehashAuto := auto) && tableSize == old(tableSize) && noObjects == old(noObjects)
      ensures Gapless() == old(Gapless())
    {
      hide ListTable.Valid, ArrayTable.Valid, TreeTable.Valid, TotalOrder, DecidesEquality, Placed, Union;
      cfg := cfg.(rehashAuto := auto);
    }

    // The loop of hi_rehash: everything that the iterator returns goes into h.
    static method Refill(h: Handle, it: Iterator, ghost m: map<Key, Data>)
      requires Copying(h, it, m, m, h.cfg, h.tableSize) && m == Union(it.pending)
      modifies h.Repr, it
      ensures fresh(h.Repr - old(h.Repr)) && Copying(h, it, m, map[], old(h.cfg), old(h.tableSize))
      decreases 0, 3
    {
      hide *;
      ghost var left, c, n := m, h.cfg, h.tableSize;
      var code, e := NextOne(h, it, m, c, n);
      while code == Success
        invariant fresh(h.Repr - old(h.Repr)) && Copying(h, it, m, left, c, n)
        invariant if code == Success then e.Some? && Given(left, Union(it.pending), e.value) else left == map[]
        decreases |left|, code == Success
      {
        PutOne(h, it, e.value, m, left, c, n);
        left := Union(it.pending);
        code, e := NextOne(h, it, m, c, n);
      }
    }

    // Between two steps of the loop: h has the settings c and n buckets, and
    // holds m without what is left.
    static ghost predicate Copying(h: Handle, it: Iterator, m: map<Key, Data>, left: map<Key, Data>, c: Settings, n: nat)
      reads h, h.Repr, it, it.handle, it.handle.Repr, if it.a != null then {it.a} else {}
    {
      && h.Valid() && !h.cfg.rehashAuto && h.Gapless() && h.cfg == c && h.tableSize == n
      && (h.cfg.engine.Array? ==> |m| < WORD / 2)
      && it.Valid() && it !in h.Repr && h !in it.handle.Repr && h.Repr !! it.handle.Repr
      && it.handle !in h.Repr && (it.a != null ==> it.a !in h.Repr)
      && SubMap(left, m) && h.Contents() == m - left.Keys
    }

    static method NextOne(h: Handle, it: Iterator, ghost m: map<Key, Data>, ghost c: Settings, ghost n: nat)
      returns (code: Code, e: Option<Entry>)
      requires Copying(h, it, m, Union(it.pending), c, n)
      modifies it
      ensures Copying(h, it, m, old(Union(it.pending)), c, n)
      ensures if code == Success then e.Some? && Given(old(Union(it.pending)), Union(it.pending), e.value)
              else old(Union(it.pending)) == map[]
      ensures h.Repr == old(h.Repr)
    {
      hide Handle.Valid, Handle.Structured, Iterator.Valid, Union;
      code, e := it.GetNext();
    }

    static method PutOne(h: Handle, it: Iterator, e: Entry, ghost m: map<Key, Data>, ghost left: map<Key, Data>,
                         ghost c: Settings, ghost n: nat)
      requires Copying(h, it, m, left, c, n) && Given(left, Union(it.pending), e)
      modifies h.Repr
      ensures Copying(h, it, m, Union(it.pending), c, n) && it.pending == old(it.pending)
      ensures |Union(it.pending)| < |left| && fresh(h.Repr - old(h.Repr))
      decreases 0, 2
    {
      hide Handle.Valid, Handle.Structured, Handle.Gapless, Handle.MayGrow, Handle.Contents, Handle.Buckets;
      hide Iterator.Valid, Union, Handle.Rehashable, SubMap;
      MoveOne(m, left, e);
      SubsetSize((m - left.Keys).Keys, m.Keys);
      h.AllMayGrow();
      assert !h.Overloaded();
      var inserted := h.Insert(e.key, e.data);
      assert h.Repr !! it.handle.Repr && it !in h.Repr && (it.a != null ==> it.a !in h.Repr);
      assert it.Valid() && h !in it.handle.Repr && it.handle !in h.Repr;
    }

    // hi_hndl takes over all fields of h.
    method Adopt(h: Handle)
      requires h.Valid() && this !in h.Repr
      modifies this
      ensures Valid() && Repr == h.Repr + {this}
      ensures Contents() == h.Contents()
      ensures cfg == h.cfg && tableSize == h.tableSize && noObjects == h.noObjects && Gapless() == h.Gapless()
    {
      hide Valid, Structured, Buckets, Contents, Gapless, Union, Usable;
      cfg, tableSize, noObjects := h.cfg, h.tableSize, h.noObjects;
      lists, arrays, trees := h.lists, h.arrays, h.trees;
      Repr := h.Repr + {this};
      SameEngine(h);
      SameBuckets(h);
    }

    lemma SameEngine(h: Handle)
      requires h.Structured() && this !in h.Repr && Repr == h.Repr + {this}
      requires cfg == h.cfg && lists == h.lists && arrays == h.arrays && trees == h.trees
      ensures Structured() && Buckets() == h.Buckets() && Gapless() == h.Gapless()
    {
      hide ListTable.Buckets, ArrayTable.Buckets, TreeTable.Buckets, ArrayTable.Gapless;
      hide ListTable.Valid, ArrayTable.Valid, TreeTable.Valid, Usable;
    }

    lemma SameBuckets(h: Handle)
      requires h.Valid() && Structured() && Buckets() == h.Buckets()
      requires cfg == h.cfg && tableSize == h.tableSize && noObjects == h.noObjects
      ensures Valid() && Contents() == h.Contents()
    {
      hide Structured, Buckets, Placed, Union;
    }

    // The snapshot of bucket b can be complete: it is counted in 32 bits, and an
    // array has no hole among its first slot_size slots.
    ghost predicate Iterable(b: nat)
      requires Structured() && b < |Buckets()|
      reads this, Repr
    {
      |Buckets()[b]| < WORD && (cfg.engine.Array? ==> arrays.arrays[b].Compact())
    }

    // lhi_*_bucket_to_array, by engine
    method ToArray(b: nat) returns (code: Code, a: array<Option<Entry>>)
      requires Structured() && b < |Buckets()| && Iterable(b)
      ensures fresh(a)
      ensures code == if Buckets()[b] == map[] then ErrNoData else Success
      ensures code == Success ==> Snapshot(a[..], Buckets()[b])
    {
      hide ListTable.Valid, ArrayTable.Valid, TreeTable.Valid, TotalOrder;
      match cfg.engine {
        case List => code, a := lists.ToArray(b);
        case ListMtf => code, a := lists.ToArray(b);
        case Array => code, a := arrays.ToArray(b);
        case RbTree => code, a := trees.ToArray(cfg.cmp, b);
      }
    }
  }

  lemma {:induction false} EmptyUnion(n: nat)
    ensures Union(Empty(n)) == map[]
  {
    UnionKeys(Empty(n));
  }

  // The table can be iterated; pending has nothing left of the buckets before
  // position from - 1, and all of the buckets from position from on.
  ghost predicate Ahead(h: Handle, pending: Buckets, from: nat)
    reads h, h.Repr
  {
    && h.Valid()
    && (forall b :: 0 <= b < h.tableSize ==> h.Iterable(b))
    && |pending| == h.tableSize && Placed(pending, h.cfg.hash)
    && (forall b :: 0 <= b < h.tableSize && b + 1 < from ==> pending[b] == map[])
    && (forall b :: from <= b < h.tableSize ==> pending[b] == h.Buckets()[b])
  }

  lemma EmptyPlaced(n: nat, hash: Hash)
    ensures Placed(Empty(n), hash)
  {
  }

  lemma {:induction false} AheadSkip(h: Handle, pending: Buckets, from: nat)
    requires Ahead(h, pending, from) && (0 < from <= h.tableSize ==> pending[from - 1] == map[])
    ensures Ahead(h, pending, from + 1)
  {
    hide Handle.Valid, Handle.Iterable, Handle.Buckets, Handle.Structured, Placed;
  }

  lemma AheadHere(h: Handle, pending: Buckets, b: nat)
    requires Ahead(h, pending, b)
    ensures h.Valid() && h.Structured() && |pending| == h.tableSize == |h.Buckets()|
    ensures b < h.tableSize ==> pending[b] == h.Buckets()[b] && h.Iterable(b)
  {
    hide Handle.Iterable, Handle.Buckets, Placed;
  }

  // struct hi_operator
  class Iterator {
    const handle: Handle
    var bucket: nat
    var a: array?<Option<Entry>>
    var nmemb: nat
    ghost var pending: Buckets    // what the current pass has still to return

    constructor (h: Handle)
      ensures handle == h && a == null
    {
      handle, bucket, a, nmemb, pending := h, 0, null, 0, [];
    }

    // What is left of the snapshot of the current bucket is still to be
    // returned, and so are all later buckets.
    ghost predicate Valid()
      reads this, handle, handle.Repr, if a != null then {a} else {}
    {
      && Own() && Ahead(handle, pending, bucket + 1)
      && if bucket < handle.tableSize
         then a != null && nmemb <= a.Length && Snapshot(a[..nmemb], pending[bucket])
         else nmemb == 0
    }

    ghost predicate Own()
      reads this, handle
    {
      this !in handle.Repr && (a != null ==> a !in handle.Repr)
    }

    // list_get_next_bucket, array_get_next_bucket and rbtree_get_next_tree: the
    // snapshot of the first bucket from position from on that has an entry.
    method Scan(from: nat) returns (b: nat, s: array?<Option<Entry>>)
      requires Ahead(handle, pending, from) && (0 < from <= handle.tableSize ==> pending[from - 1] == map[])
      ensures Ahead(handle, pending, b + 1)
      ensures if Union(pending) == map[] then b >= handle.tableSize && s == null
              else b < handle.tableSize && s != null && fresh(s) && s.Length > 0 && Snapshot(s[..], pending[b])
    {
      hide Handle.Structured, Handle.Valid, Placed, Union, Snapshot;
      UnionEmpty(pending);
      b := from;
      while b < handle.tableSize
        invariant Ahead(handle, pending, b) && (0 < b <= handle.tableSize ==> pending[b - 1] == map[])
      {
        AheadHere(handle, pending, b);
        AheadSkip(handle, pending, b);
        var code, a := handle.ToArray(b);
        if code == Success {
          SnapshotEmpty(a[..], pending[b]);
          return b, a;
        }
        b := b + 1;
      }
      AheadSkip(handle, pending, b);
      return b, null;
    }

    // lhi_bucket_array_free, and then what Scan found: without another bucket
    // the snapshot is gone, and nmemb stays as it was.
    method Take(b: nat, s: array?<Option<Entry>>)
      requires Ahead(handle, pending, b + 1) && Own()
      requires if b < handle.tableSize then s != null && s !in handle.Repr && Snapshot(s[..], pending[b]) else s == null
      modifies this
      ensures pending == old(pending) && bucket == b && a == s
      ensures nmemb == if s != null then s.Length else old(nmemb)
      ensures Valid() <==> s != null || nmemb == 0
    {
      hide Handle.Valid, Handle.Iterable, Handle.Buckets, Placed, Snapshot;
      bucket, a := b, s;
      if s != null {
        assert s[..s.Length] == s[..];
        nmemb := s.Length;
      }
    }

    // hi_iterator_create: ErrNoData, and no iterator, for an empty table
    static method Create(h: Handle) returns (code: Code, it: Iterator?)
      requires h.Valid() && forall b :: 0 <= b < h.tableSize ==> h.Iterable(b)
      ensures code == if h.Contents() == map[] then ErrNoData else Success
      ensures code == Success ==>
        it != null && fresh(it) && fresh(it.a) && it.handle == h && it.Valid() && it.pending == h.Buckets()
    {
      hide Handle.Structured, Placed, Snapshot, Union;
      var i := new Iterator(h);
      i.pending := h.Buckets();
      var b, s := i.Scan(0);
      if s == null {
        return ErrNoData, null;
      }
      i.Take(b, s);
      return Success, i;
    }

    // hi_iterator_reset, also on a table that has changed: a full pass starts
    // again.  When the table has become empty, the iterator is usable exactly if
    // its last snapshot had been used up; otherwise nmemb counts slots of a
    // snapshot that is gone.
    method Reset() returns (code: Code)
      requires Own() && handle.Valid() && forall b :: 0 <= b < handle.tableSize ==> handle.Iterable(b)
      modifies this
      ensures code == if handle.Contents() == map[] then ErrNoData else Success
      ensures pending == handle.Buckets()
      ensures Valid() <==> handle.Contents() != map[] || old(nmemb) == 0
      ensures code == ErrNoData ==> a == null && nmemb == old(nmemb)
    {
      hide Handle.Structured, Placed, Snapshot, Union;
      pending := handle.Buckets();
      var b, s := Scan(0);
      Take(b, s);
      code := if s != null then Success else ErrNoData;
    }

    // hi_iterator_getnext
    method GetNext() returns (code: Code, e: Option<Entry>)
      requires Valid()
      modifies this
      ensures Valid()
      ensures if old(Union(pending)) == map[] then code == ErrNoData && e == None && pending == old(pending)
              else code == Success && e.Some? && Given(old(Union(pending)), Union(pending), e.value)
      ensures a == null || a == old(a) || fresh(a)
    {
      hide Handle.Valid, Placed, Union, Snapshot;
      if nmemb == 0 {
        if bucket < handle.tableSize {
          SnapshotEmpty(a[..0], pending[bucket]);
        }
        var b, s := Scan(bucket + 1);
        Take(b, s);
        if s == null {
          return ErrNoData, None;
        }
      }
      e := TakeLast();
      code := Success;
    }

    // The label out of hi_iterator_getnext
    method TakeLast() returns (e: Option<Entry>)
      requires Valid() && nmemb > 0
      modifies this
      ensures Valid() && e.Some? && Given(old(Union(pending)), Union(pending), e.value) && a == old(a)
    {
      hide Handle.Valid, Handle.Iterable, Handle.Buckets, Placed, Union, Snapshot;
      SnapshotLast(a[..nmemb], pending[bucket]);
      assert a[..nmemb][nmemb - 1] == a[nmemb - 1];
      nmemb := nmemb - 1;
      e := a[nmemb];
      assert a[..nmemb + 1][..nmemb] == a[..nmemb];
      PendingWithout(pending, handle.cfg.hash, bucket, e.value);
      pending := pending[bucket := pending[bucket] - {e.value.key}];
    }
  }

  ghost predicate SubMap(a: map<Key, Data>, b: map<Key, Data>) {
    forall k :: k in a ==> k in b && b[k] == a[k]
  }

  // Moving a pair from what is left to what has been copied.
  lemma {:induction false} MoveOne(m: map<Key, Data>, left: map<Key, Data>, e: Entry)
    requires SubMap(left, m) && e.key in left && left[e.key] == e.data
    ensures e.key !in m - left.Keys && SubMap(left - {e.key}, m)
    ensures m - (left - {e.key}).Keys == (m - left.Keys)[e.key := e.data]
    ensures |left - {e.key}| < |left|
  {
    assert left.Keys == (left - {e.key}).Keys + {e.key};
  }

  // The pair of e was in m, and m' is m without it.
  ghost predicate Given(m: map<Key, Data>, m': map<Key, Data>, e: Entry) {
    e.key in m && m[e.key] == e.data && m' == m - {e.key}
  }

  lemma {:induction false} PendingWithout(bs: Buckets, hash: Hash, b: nat, e: Entry)
    requires Placed(bs, hash) && b < |bs| && e.key in bs[b] && bs[b][e.key] == e.data
    ensures var bs' := bs[b := bs[b] - {e.key}];
      Placed(bs', hash) && Given(Union(bs), Union(bs'), e)
  {
    assert hash(e.key) % |bs| == b;
    RemoveHome(bs, hash, e.key);
    LookupHome(bs, hash, e.key);
  }
}
