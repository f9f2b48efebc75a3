// Whole runs: sequences of operations on a handle, and full passes of an
// iterator.

module Runs {
  import opened Counters
  import opened Keys
  import opened Entries
  import opened TableSpec
  import opened HandleOps

  // struct hi_init_set: the function pointers may be missing.
  datatype InitSet = InitSet(
    tableSize: nat,
    hash: Option<Hash>,
    cmp: Option<Cmp>,
    engine: Engine,
    rehashAuto: bool,
    threshold: real,
    arraySize: nat)

  // lhi_set_sanity_check
  predicate Sane(init: InitSet) {
    && init.tableSize > 0 && init.cmp.Some? && init.hash.Some?
    && (init.engine.Array? ==> init.arraySize > 0)
  }

  // hi_create: the sanity checks, then an empty handle with the settings
  method Create(init: InitSet) returns (code: Code, h: Handle?)
    requires init.tableSize < WORD && init.arraySize < WORD
    requires init.cmp.Some? ==> DecidesEquality(init.cmp.value)
    requires init.cmp.Some? && init.engine.RbTree? ==> TotalOrder(init.cmp.value)
    ensures code == if Sane(init) then Success else ErrNoData
    ensures code == Success ==>
      && h != null && fresh(h) && fresh(h.Repr) && h.Valid() && h.Gapless() && h.Contents() == map[]
      && h.tableSize == init.tableSize
      && h.cfg == Settings(init.engine, init.rehashAuto, init.threshold, init.arraySize, init.hash.value, init.cmp.value)
  {
    hide TotalOrder, DecidesEquality;
    if init.tableSize == 0 {
      return ErrNoData, null;
    }
    if init.cmp.None? {
      return ErrNoData, null;
    }
    if init.hash.None? {
      return ErrNoData, null;
    }
    if init.engine.Array? && init.arraySize == 0 {
      return ErrNoData, null;
    }
    h := new Handle(
      Settings(init.engine, init.rehashAuto, init.threshold, init.arraySize, init.hash.value, init.cmp.value),
      init.tableSize);
    code := Success;
  }

  // t doubled n times
  function Doubled(t: nat, n: nat): nat
    decreases n
  {
    if n == 0 then t else Doubled(2 * t, n - 1)
  }

  lemma {:induction false} DoubledGrows(s: nat, t: nat, n: nat)
    requires s <= t
    ensures s <= Doubled(s, n) <= Doubled(t, n)
    decreases n
  {
    if n == 0 {
    } else {
      DoubledGrows(2 * s, 2 * t, n - 1);
    }
  }

  ghost predicate NoRemoves(ops: seq<Op>) {
    forall i :: 0 <= i < |ops| ==> !ops[i].Remove?
  }

  // The operations double no 32-bit capacity or table size beyond its range,
  // either because there are too few entries or because there are too few
  // doublings.  An ARRAY table that rehashes itself may not get holes.
  ghost predicate Room(h: Handle, ops: seq<Op>)
    reads h, h.Repr
    ensures Room(h, ops) ==> h.Valid()
  {
    && h.Valid()
    && (h.cfg.engine.Array? ==> |h.Contents()| + |ops| < WORD / 2)
    && (h.cfg.rehashAuto ==>
        && |h.Contents()| + |ops| < WORD
        && (h.cfg.engine.Array? ==> h.Gapless() && NoRemoves(ops))
        && ((h.cfg.threshold >= 0.0 && |h.Contents()| + |ops| < WORD / 2) || Doubled(h.tableSize, |ops|) < WORD))
  }

  // Rehashing keeps at most one object for each bucket on average.
  ghost predicate Loaded(h: Handle)
    reads h
  {
    h.cfg.rehashAuto && h.cfg.threshold < 1.0 && h.noObjects <= h.tableSize
  }

  // With a threshold in [0, 1), the integer load factor exceeds it exactly when
  // there are at least as many objects as buckets.
  lemma {:induction false} OverloadedWhen(h: Handle)
    requires h.tableSize > 0
    ensures h.Overloaded() ==> h.cfg.rehashAuto
    ensures h.Overloaded() && h.cfg.threshold >= 0.0 ==> h.noObjects >= h.tableSize
    ensures h.cfg.rehashAuto && h.cfg.threshold < 1.0 && h.noObjects >= h.tableSize ==> h.Overloaded()
  {
    Quotient(h.noObjects, h.tableSize);
  }

  lemma {:induction false} Quotient(n: nat, d: nat)
    requires d > 0
    ensures n / d == 0 <==> n < d
  {
  }

  // A table with room can be inserted into.
  lemma RoomToInsert(h: Handle, ops: seq<Op>, k: Key)
    requires Room(h, ops) && ops != []
    ensures h.MayGrow(k)
    ensures h.Overloaded() ==> 2 * h.tableSize < WORD && h.Rehashable()
  {
    hide Handle.Valid, Handle.Structured, Handle.Buckets, Handle.Contents, Handle.MayGrow, Handle.Overloaded;
    OverloadedWhen(h);
    h.AllMayGrow();
    if h.Overloaded() {
      h.SmallBuckets();
      DoubledGrows(2 * h.tableSize, 2 * h.tableSize, |ops| - 1);
    }
  }

  method ApplyInsert(h: Handle, k: Key, d: Data, ghost ops: seq<Op>) returns (code: Code)
    requires Room(h, ops) && ops != []
    modifies h.Repr
    ensures h.Valid() && fresh(h.Repr - old(h.Repr)) && h.cfg == old(h.cfg)
    ensures code == Reply(old(h.Contents()), Op.Insert(k, d)).code
    ensures h.Contents() == After(old(h.Contents()), Op.Insert(k, d))
    ensures h.tableSize == old(h.tableSize) || (h.cfg.rehashAuto && h.tableSize == 2 * old(h.tableSize))
    ensures old(h.Gapless()) ==> h.Gapless()
    ensures old(Loaded(h)) ==> Loaded(h)
  {
    hide Handle.Valid, Handle.Structured, Handle.Overloaded, Handle.MayGrow, Handle.Rehashable, Handle.Buckets;
    hide Handle.Contents, Handle.Gapless, Union, Placed, Doubled;
    OverloadedWhen(h);
    RoomToInsert(h, ops, k);
    ghost var m := h.Contents();
    code := h.Insert(k, d);
    assert |m[k := d]| <= |m| + 1;
  }

  // One operation of a run; overloaded tables double, and stay loaded.
  method Apply(h: Handle, op: Op, ghost rest: seq<Op>) returns (a: Answer)
    requires Room(h, [op] + rest)
    modifies h.Repr
    ensures h.Valid() && Room(h, rest) && fresh(h.Repr - old(h.Repr)) && h.cfg == old(h.cfg)
    ensures a == Reply(old(h.Contents()), op) && h.Contents() == After(old(h.Contents()), op)
    ensures old(h.Gapless()) && !op.Remove? ==> h.Gapless()
    ensures old(Loaded(h)) ==> Loaded(h)
  {
    hide Handle.Valid, Handle.Structured, Handle.Gapless, Handle.Contents, Handle.Buckets;
    hide Union, Placed, Doubled, NoRemoves;
    AfterSize(h.Contents(), op);
    RoomLeft(h.tableSize, op, rest);
    match op {
      case Insert(k, d) =>
        var code := ApplyInsert(h, k, d, [op] + rest);
        a := Answer(code, None);
      case Get(k) =>
        var code, data := h.Get(k);
        a := Answer(code, data);
      case Remove(k) =>
        var code, data := h.Remove(k);
        a := Answer(code, data);
    }
  }

  lemma RoomLeft(t: nat, op: Op, rest: seq<Op>)
    ensures |[op] + rest| == |rest| + 1
    ensures Doubled(t, |rest|) <= Doubled(2 * t, |rest|) == Doubled(t, |[op] + rest|)
    ensures NoRemoves([op] + rest) ==> !op.Remove? && NoRemoves(rest)
  {
    DoubledGrows(t, 2 * t, |rest|);
    if NoRemoves([op] + rest) {
      assert ([op] + rest)[0] == op;
      assert forall i :: 0 <= i < |rest| ==> rest[i] == ([op] + rest)[i + 1];
    }
  }

  lemma AfterSize(m: map<Key, Data>, op: Op)
    ensures |After(m, op)| <= |m| + 1
    ensures op.Remove? ==> |After(m, op)| <= |m|
  {
    match op {
      case Insert(k, d) =>
        assert |m[k := d]| <= |m| + 1;
      case Get(k) =>
      case Remove(k) =>
        SubsetSize((m - {k}).Keys, m.Keys);
    }
  }

  lemma OneReply(answers: seq<Answer>, m: map<Key, Data>, ops: seq<Op>, i: nat)
    requires i < |ops|
    ensures answers + Replies(m, ops[i..]) == answers + [Reply(m, ops[i])] + Replies(After(m, ops[i]), ops[i + 1..])
    ensures Final(m, ops[i..]) == Final(After(m, ops[i]), ops[i + 1..])
    ensures ops[i..] == [ops[i]] + ops[i + 1..]
    ensures NoRemoves(ops) ==> !ops[i].Remove?
  {
    hide Reply, After;
    assert ops[i..][1..] == ops[i + 1..] && ops[i..][0] == ops[i];
  }

  lemma NoReplies(answers: seq<Answer>, m: map<Key, Data>, ops: seq<Op>)
    ensures answers + Replies(m, ops[|ops|..]) == answers && Final(m, ops[|ops|..]) == m
  {
  }

  // Every run of operations gets the answers of the finite map, whatever the
  // engine, the hash function and the table size, and whether or not the table
  // rehashes itself on the way.  Without removes no ARRAY bucket gets a hole.
  method Run(h: Handle, ops: seq<Op>) returns (answers: seq<Answer>)
    requires Room(h, ops)
    modifies h.Repr
    ensures h.Valid() && fresh(h.Repr - old(h.Repr)) && h.cfg == old(h.cfg)
    ensures answers == Replies(old(h.Contents()), ops)
    ensures h.Contents() == Final(old(h.Contents()), ops)
    ensures old(h.Gapless()) && NoRemoves(ops) ==> h.Gapless()
    ensures old(Loaded(h)) ==> Loaded(h)
  {
    hide Handle.Valid, Handle.Structured, Handle.Gapless, Union, Room, Loaded, Reply, After, Replies, Final, NoRemoves;
    answers := [];
    assert ops[0..] == ops;
    ghost var m := h.Contents();
    for i := 0 to |ops|
      invariant h.Valid() && Room(h, ops[i..]) && fresh(h.Repr - old(h.Repr)) && h.cfg == old(h.cfg)
      invariant answers + Replies(h.Contents(), ops[i..]) == Replies(m, ops)
      invariant Final(h.Contents(), ops[i..]) == Final(m, ops)
      invariant old(h.Gapless()) && NoRemoves(ops) ==> h.Gapless()
      invariant old(Loaded(h)) ==> Loaded(h)
    {
      OneReply(answers, h.Contents(), ops, i);
      var a := Apply(h, ops[i], ops[i + 1..]);
      answers := answers + [a];
    }
    NoReplies(answers, h.Contents(), ops);
  }

  // Two tables with the same contents, of any two engines, give the same
  // answers to the same operations.
  method SameAnswers(h1: Handle, h2: Handle, ops: seq<Op>) returns (a1: seq<Answer>, a2: seq<Answer>)
    requires Room(h1, ops) && Room(h2, ops) && h1.Repr !! h2.Repr
    requires h1.Contents() == h2.Contents()
    modifies h1.Repr, h2.Repr
    ensures a1 == a2
    ensures h1.Valid() && h2.Valid() && h1.Contents() == h2.Contents()
  {
    hide Handle.Valid, Handle.Structured, Handle.Contents, Union, Replies, Final, Loaded;
    a1 := Run(h1, ops);
    a2 := Run(h2, ops);
  }

  // A full pass, as tests/iterator_test.c makes it: every entry that is still
  // to come is returned exactly once, and then there is nothing left.
  method Pass(it: Iterator) returns (es: seq<Entry>)
    requires it.Valid()
    modifies it
    ensures it.Valid() && Union(it.pending) == map[]
    ensures Unique(es) && Dict(es) == old(Union(it.pending))
  {
    hide Iterator.Valid, Union;
    ghost var m := Union(it.pending);
    es := [];
    var code, e := it.GetNext();
    ghost var left := m;
    while code == Success
      invariant it.Valid() && Unique(es) && SubMap(left, m) && Dict(es) == m - left.Keys
      invariant if code == Success then e.Some? && Given(left, Union(it.pending), e.value)
                else left == map[] == Union(it.pending)
      decreases |left|, code == Success
    {
      MoveOne(m, left, e.value);
      DictKeys(es);
      DictInsert(es, e.value, []);
      assert es + [] == es && es + [e.value] + [] == es + [e.value];
      es := es + [e.value];
      left := Union(it.pending);
      code, e := it.GetNext();
    }
  }

  // A new iterator and a full pass return every entry of the table exactly once.
  method PassAll(h: Handle) returns (es: seq<Entry>)
    requires h.Valid() && h.Gapless() && forall b :: 0 <= b < |h.Buckets()| ==> |h.Buckets()[b]| < WORD
    ensures Unique(es) && Dict(es) == h.Contents()
  {
    hide Handle.Valid, Handle.Structured, Handle.Gapless, Handle.Iterable, Iterator.Valid, Union;
    h.Iterables();
    var code, it := Iterator.Create(h);
    if code == Success {
      es := Pass(it);
    } else {
      es := [];
    }
  }

  // What was put into a table, of whatever engine, is what a pass returns.
  method PutAndPass(h: Handle, ops: seq<Op>) returns (es: seq<Entry>)
    requires Room(h, ops) && h.Gapless() && NoRemoves(ops)
    requires |h.Contents()| + |ops| < WORD
    modifies h.Repr
    ensures Unique(es) && Dict(es) == Final(old(h.Contents()), ops)
  {
    hide Handle.Valid, Handle.Structured, Handle.Gapless, Handle.Buckets, Handle.Contents;
    hide Final, Dict, Unique, Room, NoRemoves;
    FinalSize(h.Contents(), ops);
    var answers := Run(h, ops);
    h.SmallBuckets();
    es := PassAll(h);
  }

  lemma {:induction false} FinalSize(m: map<Key, Data>, ops: seq<Op>)
    ensures |Final(m, ops)| <= |m| + |ops|
    decreases |ops|
  {
    if ops == [] {
    } else {
      AfterSize(m, ops[0]);
      FinalSize(After(m, ops[0]), ops[1..]);
    }
  }
}
