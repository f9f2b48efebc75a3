// The locks of lhi_insert_rbtree and lhi_remove_rbtree (lib/hi_rbtree.c): any
// number of threads, each at its own place in the code, one step of one thread
// at a time. A tree is searched and changed under its own lock; the counter of
// the whole table is changed later, under another lock. Counters are read and
// written in separate steps.

module Locking {
  import opened Counters
  import opened Entries
  import opened Keys
  import opened SearchTree

  // ---------- Threads ----------

  datatype Call = Insert(key: Key, data: Data) | Remove(key: Key)

  // The return value of a call, and the data pointer that remove hands out
  datatype Answer = Answer(code: Code, data: Option<Data>)

  // Where a thread is. From Search to Leave it has the lock of a tree, from
  // LoadCount to Leave2 the lock of the handle. at is the subtree that the
  // search has reached; Change links a new node with the entry, or erases the
  // node that has it.
  datatype Place =
    | Idle
    | Enter(call: Call)
    | Search(call: Call, at: Tree)
    | Change(call: Call, entry: Entry)
    | LoadSize(call: Call, answer: Answer)
    | StoreSize(call: Call, answer: Answer, seen: nat)
    | Leave(call: Call, answer: Answer)
    | Enter2(call: Call, answer: Answer)
    | LoadCount(call: Call, answer: Answer)
    | StoreCount(call: Call, answer: Answer, seen: nat)
    | Leave2(call: Call, answer: Answer)

  datatype Lock = Free | Owned(owner: nat)

  datatype State = State(
    trees: seq<Tree>, bucketSize: seq<nat>, treeLock: seq<Lock>,
    noObjects: nat, mutex: Lock, threads: seq<Place>)

  // What does not change: the comparator and the hash function
  datatype Table = Table(cmp: Cmp, hash: Key -> nat)

  function Home(d: Table, s: State, key: Key): nat
    requires |s.trees| > 0
  {
    d.hash(key) % |s.trees|
  }

  // ++ or -- of a 32-bit counter
  function Count(c: Call, n: nat): nat {
    if c.Insert? then Inc32(n) else Dec32(n)
  }

  // One step of thread p
  ghost predicate Step(d: Table, s: State, p: nat, s': State)
    requires |s.trees| > 0 && |s.bucketSize| == |s.trees| && |s.treeLock| == |s.trees| && p < |s.threads|
  {
    match s.threads[p]
    case Idle =>
      exists c :: s' == s.(threads := s.threads[p := Enter(c)])
    case Enter(c) =>
      var h := Home(d, s, c.key);
      s.treeLock[h].Free? &&
      s' == s.(treeLock := s.treeLock[h := Owned(p)], threads := s.threads[p := Search(c, s.trees[h])])
    case Search(c, at) =>
      if at.Leaf? then
        s' == s.(threads := s.threads[p :=
          if c.Insert? then Change(c, Entry(c.key, c.data)) else Leave(c, Answer(ErrNoKey, None))])
      else if d.cmp(c.key, at.entry.key) == 0 then
        s' == s.(threads := s.threads[p :=
          if c.Insert? then Leave(c, Answer(ErrDupKey, None)) else Change(c, at.entry)])
      else
        s' == s.(threads := s.threads[p := Search(c, Toward(d.cmp, c.key, at))])
    case Change(c, e) =>
      var h := Home(d, s, c.key);
      exists t ::
        && (if c.Insert? then Linked(d.cmp, s.trees[h], e, t) else Unlinked(d.cmp, s.trees[h], e, t))
        && s' == s.(trees := s.trees[h := t],
                    threads := s.threads[p := LoadSize(c, Answer(Success, if c.Insert? then None else Some(e.data)))])
    case LoadSize(c, r) =>
      s' == s.(threads := s.threads[p := StoreSize(c, r, s.bucketSize[Home(d, s, c.key)])])
    case StoreSize(c, r, n) =>
      s' == s.(bucketSize := s.bucketSize[Home(d, s, c.key) := Count(c, n)], threads := s.threads[p := Leave(c, r)])
    case Leave(c, r) =>
      s' == s.(treeLock := s.treeLock[Home(d, s, c.key) := Free],
               threads := s.threads[p := if r.code == Success then Enter2(c, r) else Idle])
    case Enter2(c, r) =>
      s.mutex.Free? && s' == s.(mutex := Owned(p), threads := s.threads[p := LoadCount(c, r)])
    case LoadCount(c, r) =>
      s' == s.(threads := s.threads[p := StoreCount(c, r, s.noObjects)])
    case StoreCount(c, r, n) =>
      s' == s.(noObjects := Count(c, n), threads := s.threads[p := Leave2(c, r)])
    case Leave2(c, r) =>
      s' == s.(mutex := Free, threads := s.threads[p := Idle])
  }

  // ---------- The invariant ----------

  predicate InTree(a: Place) {
    a.Search? || a.Change? || a.LoadSize? || a.StoreSize? || a.Leave?
  }

  predicate InHandle(a: Place) {
    a.LoadCount? || a.StoreCount? || a.Leave2?
  }

  ghost predicate Shaped(s: State) {
    && |s.trees| > 0 && |s.bucketSize| == |s.trees| && |s.treeLock| == |s.trees|
    && s.noObjects < WORD && (forall h :: 0 <= h < |s.bucketSize| ==> s.bucketSize[h] < WORD)
  }

  // What thread p knows where it is.
  ghost predicate Local(d: Table, s: State, p: nat)
    requires Shaped(s) && p < |s.threads|
  {
    var a := s.threads[p];
    && (InTree(a) ==> s.treeLock[Home(d, s, a.call.key)] == Owned(p))
    && (InHandle(a) ==> s.mutex == Owned(p))
    && match a
       case Search(c, at) =>
         var t := s.trees[Home(d, s, c.key)];
         Within(at, t) && Ordered(d.cmp, at) && Find(t, c.key) == Find(at, c.key)
       case Change(c, e) =>
         var t := s.trees[Home(d, s, c.key)];
         e.key == c.key && if c.Insert? then e.data == c.data && Find(t, c.key).None? else e in EntriesOf(t)
       case LoadSize(_, r) => r.code == Success
       case StoreSize(c, r, n) => r.code == Success && n == s.bucketSize[Home(d, s, c.key)]
       case StoreCount(c, _, n) => n == s.noObjects
       case _ => true
  }

  // No tree holds a key twice, and every key is in the tree of its hash.
  ghost predicate TreesSound(d: Table, s: State)
    requires Shaped(s)
  {
    forall h :: 0 <= h < |s.trees| ==>
      && Ordered(d.cmp, s.trees[h])
      && (forall e :: e in EntriesOf(s.trees[h]) ==> Home(d, s, e.key) == h)
  }

  function Sign(c: Call): int {
    if c.Insert? then 1 else -1
  }

  // The change of tree h that its bucket_size does not show yet
  ghost function Lag(d: Table, s: State, h: nat): int
    requires Shaped(s) && h < |s.trees|
  {
    if s.treeLock[h].Owned? && s.treeLock[h].owner < |s.threads| then
      var a := s.threads[s.treeLock[h].owner];
      if (a.LoadSize? || a.StoreSize?) && Home(d, s, a.call.key) == h then Sign(a.call) else 0
    else 0
  }

  ghost predicate SizeRight(d: Table, s: State, h: nat)
    requires Shaped(s) && h < |s.trees|
  {
    (s.bucketSize[h] + Lag(d, s, h) - |EntriesOf(s.trees[h])|) % WORD == 0
  }

  // The increment or decrement of no_objects that a thread still owes
  function Due(a: Place): int {
    match a
    case Leave(c, r) => if r.code == Success then Sign(c) else 0
    case Enter2(c, _) => Sign(c)
    case LoadCount(c, _) => Sign(c)
    case StoreCount(c, _, _) => Sign(c)
    case _ => 0
  }

  ghost function Dues(threads: seq<Place>): int {
    if threads == [] then 0 else Dues(threads[..|threads| - 1]) + Due(threads[|threads| - 1])
  }

  ghost function Sum(sizes: seq<nat>): nat {
    if sizes == [] then 0 else Sum(sizes[..|sizes| - 1]) + sizes[|sizes| - 1]
  }

  // no_objects, with the increments and decrements that are due, is the sum of
  // the bucket sizes modulo 2 to the 32.
  ghost predicate Conserved(s: State) {
    (s.noObjects + Dues(s.threads) - Sum(s.bucketSize)) % WORD == 0
  }

  ghost predicate Inv(d: Table, s: State) {
    && Shaped(s) && TreesSound(d, s) && Conserved(s)
    && (forall p :: 0 <= p < |s.threads| ==> Local(d, s, p))
    && (forall h :: 0 <= h < |s.trees| ==> SizeRight(d, s, h))
  }

  // ---------- Every step keeps the invariant ----------

  lemma SameHome(d: Table, s: State, s': State, a: Place)
    requires |s.trees| == |s'.trees| > 0
    ensures !a.Idle? ==> Home(d, s', a.call.key) == Home(d, s, a.call.key) < |s.trees|
  {
  }

  // The lock keeps other threads out: what thread q knows stays true while p moves.
  lemma KeepsOthers(d: Table, s: State, p: nat, s': State, q: nat)
    requires Shaped(s) && Shaped(s') && p < |s.threads| && q < |s.threads| && p != q
    requires Local(d, s, p) && Local(d, s, q) && Step(d, s, p, s')
    ensures |s'.threads| == |s.threads| && |s'.trees| == |s.trees| && Local(d, s', q)
  {
    hide Ordered, EntriesOf, Find, Within, Toward, Linked, Unlinked, Count, Inc32, Dec32, Home;
    KeepsShape(d, s, p, s');
    SameHome(d, s, s', s.threads[q]);
  }

  lemma KeepsSearching(d: Table, s: State, p: nat, s': State)
    requires TotalOrder(d.cmp) && Shaped(s) && Shaped(s') && p < |s.threads| && s.threads[p].Search?
    requires Local(d, s, p) && Step(d, s, p, s')
    ensures |s'.threads| == |s.threads| && |s'.trees| == |s.trees| && Local(d, s', p)
  {
    hide Ordered, EntriesOf, Toward, Find, Within;
    var a := s.threads[p];
    if a.at.Node? {
      FindToward(d.cmp, a.call.key, a.at);
      WithinToward(d.cmp, a.call.key, a.at, s.trees[Home(d, s, a.call.key)]);
      WithinHolds(a.at, s.trees[Home(d, s, a.call.key)]);
    } else {
      LeafIsEmpty(a.at);
    }
  }

  lemma LeafIsEmpty(t: Tree)
    requires t.Leaf?
    ensures EntriesOf(t) == multiset{}
  {
  }

  lemma KeepsSelf(d: Table, s: State, p: nat, s': State)
    requires TotalOrder(d.cmp) && Shaped(s) && Shaped(s') && TreesSound(d, s) && p < |s.threads|
    requires Local(d, s, p) && Step(d, s, p, s')
    ensures |s'.threads| == |s.threads| && |s'.trees| == |s.trees| && Local(d, s', p)
  {
    hide Ordered, EntriesOf, Find, Within, Linked, Unlinked, Inc32, Dec32, Toward, TreesSound;
    if s.threads[p].Search? {
      KeepsSearching(d, s, p, s');
    } else if s.threads[p].Enter? {
      OrderedHere(d, s, Home(d, s, s.threads[p].call.key));
    }
  }

  lemma OrderedHere(d: Table, s: State, h: nat)
    requires Shaped(s) && TreesSound(d, s) && h < |s.trees|
    ensures Ordered(d.cmp, s.trees[h]) && Within(s.trees[h], s.trees[h])
  {
  }

  lemma KeepsShape(d: Table, s: State, p: nat, s': State)
    requires Shaped(s) && p < |s.threads| && Local(d, s, p) && Step(d, s, p, s')
    ensures Shaped(s') && |s'.threads| == |s.threads| && |s'.trees| == |s.trees|
  {
    hide Ordered, EntriesOf, Find, Within, Linked, Unlinked, Toward;
  }

  lemma KeepsTrees(d: Table, s: State, p: nat, s': State)
    requires Shaped(s) && Shaped(s') && TreesSound(d, s) && p < |s.threads|
    requires Local(d, s, p) && Step(d, s, p, s')
    ensures TreesSound(d, s')
  {
    hide Ordered, EntriesOf, Find, Within, Toward, Inc32, Dec32;
    if !s.threads[p].Change? {
      assert s'.trees == s.trees;
    }
  }

  // Modulo 2 to the 32, ++ and -- add the sign of the call.
  lemma CountIs(c: Call, n: nat, x: int)
    requires n < WORD
    ensures (Count(c, n) + x) % WORD == (n + Sign(c) + x) % WORD
  {
  }

  lemma LagKept(d: Table, s: State, p: nat, s': State, h: nat)
    requires Shaped(s) && Shaped(s') && p < |s.threads| && |s'.threads| == |s.threads| && |s'.trees| == |s.trees|
    requires Local(d, s, p) && Step(d, s, p, s') && h < |s.trees|
    ensures !(s.threads[p].Change? || s.threads[p].StoreSize?) || Home(d, s, s.threads[p].call.key) != h
            ==> Lag(d, s', h) == Lag(d, s, h)
    ensures s.threads[p].Change? && Home(d, s, s.threads[p].call.key) == h
            ==> Lag(d, s, h) == 0 && Lag(d, s', h) == Sign(s.threads[p].call)
    ensures s.threads[p].StoreSize? && Home(d, s, s.threads[p].call.key) == h
            ==> Lag(d, s, h) == Sign(s.threads[p].call) && Lag(d, s', h) == 0
  {
    hide Ordered, EntriesOf, Find, Within, Toward, Inc32, Dec32, Linked, Unlinked, Count, Home;
    var a := s.threads[p];
    SameHome(d, s, s', a);
    if s.treeLock[h].Owned? && s.treeLock[h].owner < |s.threads| {
      SameHome(d, s, s', s.threads[s.treeLock[h].owner]);
    }
    if a.Enter? || a.Leave? {
    } else {
      assert s'.treeLock == s.treeLock;
    }
  }

  lemma KeepsSize(d: Table, s: State, p: nat, s': State, h: nat)
    requires Shaped(s) && Shaped(s') && p < |s.threads| && |s'.threads| == |s.threads| && |s'.trees| == |s.trees|
    requires Local(d, s, p) && Step(d, s, p, s') && h < |s.trees| && SizeRight(d, s, h)
    ensures SizeRight(d, s', h)
  {
    hide Ordered, EntriesOf, Find, Within, Toward, Inc32, Dec32, Lag, Count;
    LagKept(d, s, p, s', h);
    var a := s.threads[p];
    if a.StoreSize? {
      CountIs(a.call, s.bucketSize[Home(d, s, a.call.key)], -|EntriesOf(s.trees[h])|);
    }
  }

  lemma {:induction false} DuesUpdate(threads: seq<Place>, p: nat, a: Place)
    requires p < |threads|
    ensures Dues(threads[p := a]) == Dues(threads) - Due(threads[p]) + Due(a)
  {
    hide Due;
    var last := |threads| - 1;
    if p == last {
      assert threads[p := a][..last] == threads[..last];
    } else {
      assert threads[p := a][..last] == threads[..last][p := a];
      DuesUpdate(threads[..last], p, a);
    }
  }

  lemma {:induction false} SumUpdate(sizes: seq<nat>, h: nat, n: nat)
    requires h < |sizes|
    ensures Sum(sizes[h := n]) == Sum(sizes) - sizes[h] + n
  {
    var last := |sizes| - 1;
    if h == last {
      assert sizes[h := n][..last] == sizes[..last];
    } else {
      assert sizes[h := n][..last] == sizes[..last][h := n];
      SumUpdate(sizes[..last], h, n);
    }
  }

  lemma KeepsCount(d: Table, s: State, p: nat, s': State)
    requires Shaped(s) && p < |s.threads| && Local(d, s, p) && Step(d, s, p, s') && Conserved(s)
    ensures Conserved(s')
  {
    hide Ordered, EntriesOf, Find, Within, Toward, Inc32, Dec32, Linked, Unlinked, Dues, Sum, Count;
    var a := s.threads[p];
    DuesUpdate(s.threads, p, s'.threads[p]);
    if a.StoreSize? {
      var h := Home(d, s, a.call.key);
      SumUpdate(s.bucketSize, h, Count(a.call, a.seen));
      StoredSize(s.noObjects + Dues(s.threads), Sum(s.bucketSize), a.seen, a.call);
    } else if a.StoreCount? {
      CountIs(a.call, a.seen, Dues(s'.threads) - Sum(s.bucketSize));
    }
  }

  lemma StoredSize(x: int, sum: int, n: nat, c: Call)
    requires n < WORD && (x - sum) % WORD == 0
    ensures (x + Sign(c) - (sum - n + Count(c, n))) % WORD == 0
  {
  }

  // Every step of every thread, in whatever order, keeps the invariant.
  lemma StepKeeps(d: Table, s: State, p: nat, s': State)
    requires TotalOrder(d.cmp) && Inv(d, s) && p < |s.threads| && Step(d, s, p, s')
    ensures Inv(d, s') && |s'.threads| == |s.threads|
  {
    hide Local, Step, TreesSound, SizeRight, Conserved;
    KeepsShape(d, s, p, s');
    KeepsTrees(d, s, p, s');
    KeepsCount(d, s, p, s');
    forall q | 0 <= q < |s'.threads| ensures Local(d, s', q) {
      if q == p {
        KeepsSelf(d, s, p, s');
      } else {
        KeepsOthers(d, s, p, s', q);
      }
    }
    forall h | 0 <= h < |s'.trees| ensures SizeRight(d, s', h) {
      KeepsSize(d, s, p, s', h);
    }
  }

  // ---------- Whole runs ----------

  // Any table whose counters are right, with no thread at work
  ghost predicate Start(d: Table, s: State) {
    && Shaped(s) && TreesSound(d, s)
    && s.mutex.Free? && (forall h :: 0 <= h < |s.treeLock| ==> s.treeLock[h].Free?)
    && (forall p :: 0 <= p < |s.threads| ==> s.threads[p].Idle?)
    && (forall h :: 0 <= h < |s.trees| ==> s.bucketSize[h] == |EntriesOf(s.trees[h])| % WORD)
    && s.noObjects == Sum(s.bucketSize) % WORD
  }

  ghost predicate Moves(d: Table, s: State, p: nat, s': State) {
    Shaped(s) && p < |s.threads| && Step(d, s, p, s')
  }

  // Thread who[i] takes step i.
  ghost predicate Run(d: Table, states: seq<State>, who: seq<nat>) {
    && |states| == |who| + 1
    && forall i {:trigger who[i]} :: 0 <= i < |who| ==> Moves(d, states[i], who[i], states[i + 1])
  }

  lemma {:induction false} NoDues(threads: seq<Place>)
    requires forall p :: 0 <= p < |threads| ==> threads[p].Idle?
    ensures Dues(threads) == 0
  {
    if threads == [] {
    } else {
      NoDues(threads[..|threads| - 1]);
    }
  }

  lemma StartHolds(d: Table, s: State)
    requires Start(d, s)
    ensures Inv(d, s)
  {
    hide TreesSound, EntriesOf;
    NoDues(s.threads);
  }

  // In every run of any number of threads, every state keeps the invariant.
  lemma {:induction false} RunKeeps(d: Table, states: seq<State>, who: seq<nat>)
    requires TotalOrder(d.cmp) && Run(d, states, who) && Start(d, states[0])
    ensures Inv(d, states[|who|])
  {
    hide Moves, Inv, Start;
    if who == [] {
      StartHolds(d, states[0]);
    } else {
      var last := |who| - 1;
      forall i {:trigger who[..last][i]} | 0 <= i < last
        ensures Moves(d, states[..|who|][i], who[..last][i], states[..|who|][i + 1])
      {
        assert who[i] == who[..last][i];
      }
      RunKeeps(d, states[..|who|], who[..last]);
      MoveKeeps(d, states[last], who[last], states[|who|]);
    }
  }

  lemma MoveKeeps(d: Table, s: State, p: nat, s': State)
    requires TotalOrder(d.cmp) && Inv(d, s) && Moves(d, s, p, s')
    ensures Inv(d, s')
  {
    hide Inv, Step;
    StepKeeps(d, s, p, s');
  }

  // There is one entry with a key at most, in one of the trees.
  ghost predicate NoKeyTwice(s: State) {
    forall h, i, e: Entry, f: Entry ::
      (0 <= h < |s.trees| && 0 <= i < |s.trees| && e.key == f.key
       && e in EntriesOf(s.trees[h]) && f in EntriesOf(s.trees[i])) ==>
      h == i && e == f && EntriesOf(s.trees[h])[e] == 1
  }

  ghost predicate ByHash(d: Table, s: State) {
    forall h, e: Entry :: 0 <= h < |s.trees| && e in EntriesOf(s.trees[h]) ==> d.hash(e.key) % |s.trees| == h
  }

  // What the invariant says at every moment: no tree holds a key twice, every
  // key is in the tree of its hash, a lock has one owner at most, and the
  // counters agree up to what is due.
  lemma Safe(d: Table, s: State)
    requires TotalOrder(d.cmp) && Inv(d, s)
    ensures NoKeyTwice(s) && ByHash(d, s)
    ensures forall p, q :: 0 <= p < q < |s.threads| && InTree(s.threads[p]) && InTree(s.threads[q]) ==>
      Home(d, s, s.threads[p].call.key) != Home(d, s, s.threads[q].call.key)
    ensures forall p, q :: 0 <= p < q < |s.threads| ==> !(InHandle(s.threads[p]) && InHandle(s.threads[q]))
    ensures (s.noObjects + Dues(s.threads)) % WORD == Sum(s.bucketSize) % WORD
  {
    hide Ordered, EntriesOf, Dues, Sum;
    forall h, i, e: Entry, f: Entry | 0 <= h < |s.trees| && 0 <= i < |s.trees| && e.key == f.key
        && e in EntriesOf(s.trees[h]) && f in EntriesOf(s.trees[i])
      ensures h == i && e == f && EntriesOf(s.trees[h])[e] == 1
    {
      assert Home(d, s, e.key) == Home(d, s, f.key);
      NoDuplicates(d.cmp, s.trees[h], e, f);
    }
    forall h, e: Entry | 0 <= h < |s.trees| && e in EntriesOf(s.trees[h])
      ensures d.hash(e.key) % |s.trees| == h
    {
      assert Home(d, s, e.key) == h;
    }
    forall p, q | 0 <= p < q < |s.threads|
      ensures !(InHandle(s.threads[p]) && InHandle(s.threads[q]))
      ensures InTree(s.threads[p]) && InTree(s.threads[q]) ==>
        Home(d, s, s.threads[p].call.key) != Home(d, s, s.threads[q].call.key)
    {
      assert Local(d, s, p) && Local(d, s, q);
    }
    SameResidue(s.noObjects + Dues(s.threads), Sum(s.bucketSize));
  }

  lemma SameResidue(x: int, y: int)
    requires (x - y) % WORD == 0
    ensures x % WORD == y % WORD
  {
  }

  // When all threads are idle, nothing is due: every bucket_size is the number
  // of keys of its tree, and no_objects is their sum.
  lemma AgreeWhenIdle(d: Table, s: State)
    requires TotalOrder(d.cmp) && Inv(d, s) && forall p :: 0 <= p < |s.threads| ==> s.threads[p].Idle?
    ensures s.noObjects == Sum(s.bucketSize) % WORD
    ensures forall h :: 0 <= h < |s.trees| ==> s.bucketSize[h] == |EntriesOf(s.trees[h])| % WORD
  {
    hide EntriesOf, Dues, Sum, TreesSound;
    NoDues(s.threads);
    SameResidue(s.noObjects, Sum(s.bucketSize));
    forall h | 0 <= h < |s.trees| ensures s.bucketSize[h] == |EntriesOf(s.trees[h])| % WORD {
      assert SizeRight(d, s, h);
      assert Lag(d, s, h) == 0;
      SameResidue(s.bucketSize[h], |EntriesOf(s.trees[h])|);
    }
  }

  // ---------- Calls take effect at one moment ----------

  // The data pointer of a key in the whole table
  ghost function Lookup(d: Table, s: State, x: Key): Option<Data>
    requires Shaped(s)
  {
    Find(s.trees[Home(d, s, x)], x)
  }

  // A thread that has found out what its call returns
  predicate Decided(a: Place) {
    !(a.Idle? || a.Enter? || a.Search? || a.Change?)
  }

  // The answer of an atomic call to a table that maps the key of the call to
  // found, and what the table maps the key to afterwards
  function Reply(c: Call, found: Option<Data>): Answer {
    if c.Insert? then Answer(if found.None? then Success else ErrDupKey, None)
    else Answer(if found.Some? then Success else ErrNoKey, found)
  }

  function Effect(c: Call, found: Option<Data>): Option<Data> {
    if c.Insert? && found.None? then Some(c.data) else if c.Remove? then None else found
  }

  // Each call changes the table, and decides its answer, in one single step, as
  // the atomic call does. No other step changes the table or an answer. So
  // every run is, step by step, a run of atomic calls.
  lemma CallsAreAtomic(d: Table, s: State, p: nat, s': State)
    requires TotalOrder(d.cmp) && Inv(d, s) && p < |s.threads| && Step(d, s, p, s')
    ensures Shaped(s') && |s'.threads| == |s.threads|
    ensures var a, a' := s.threads[p], s'.threads[p];
            if !Decided(a) && Decided(a') then
              && a'.call == a.call && a'.answer == Reply(a.call, Lookup(d, s, a.call.key))
              && forall x :: Lookup(d, s', x) ==
                   if x == a.call.key then Effect(a.call, Lookup(d, s, x)) else Lookup(d, s, x)
            else
              && (forall x :: Lookup(d, s', x) == Lookup(d, s, x))
              && (Decided(a) && Decided(a') ==> a'.call == a.call && a'.answer == a.answer)
  {
    hide Ordered, EntriesOf, Within, Find, Linked, Unlinked, Toward, Inc32, Dec32, TreesSound, Conserved, SizeRight;
    KeepsShape(d, s, p, s');
    assert Local(d, s, p);
    var a := s.threads[p];
    if a.Search? {
      SearchEnds(d, s, p);
    } else if a.Change? {
      ChangeIs(d, s, p, s');
    }
  }

  // Where the search ends, it knows what the table holds for the key.
  lemma SearchEnds(d: Table, s: State, p: nat)
    requires TotalOrder(d.cmp) && Shaped(s) && p < |s.threads| && Local(d, s, p) && s.threads[p].Search?
    ensures var a := s.threads[p];
            && (a.at.Leaf? ==> Lookup(d, s, a.call.key) == None)
            && (a.at.Node? && d.cmp(a.call.key, a.at.entry.key) == 0 ==>
                Lookup(d, s, a.call.key) == Some(a.at.entry.data))
  {
    hide Ordered, EntriesOf, Within, Find, Toward;
    var a := s.threads[p];
    if a.at.Node? {
      FindToward(d.cmp, a.call.key, a.at);
    } else {
      LeafIsEmpty(a.at);
    }
  }

  lemma ChangeIs(d: Table, s: State, p: nat, s': State)
    requires TotalOrder(d.cmp) && Inv(d, s) && Shaped(s') && p < |s.threads| && Step(d, s, p, s') && s.threads[p].Change?
    ensures |s'.threads| == |s.threads| && |s'.trees| == |s.trees|
    ensures var c := s.threads[p].call;
            && s'.threads[p] == LoadSize(c, Reply(c, Lookup(d, s, c.key)))
            && forall x :: Lookup(d, s', x) == if x == c.key then Effect(c, Lookup(d, s, x)) else Lookup(d, s, x)
  {
    hide Ordered, EntriesOf, Within, Find, Linked, Unlinked, Conserved, SizeRight;
    assert Local(d, s, p);
    var c, e := s.threads[p].call, s.threads[p].entry;
    var h := Home(d, s, c.key);
    var t, t' := s.trees[h], s'.trees[h];
    if c.Remove? {
      FindIs(d.cmp, t, e);
    }
    forall x ensures Lookup(d, s', x) == if x == c.key then Effect(c, Lookup(d, s, x)) else Lookup(d, s, x) {
      if Home(d, s, x) == h {
        if c.Insert? {
          FindLinked(d.cmp, t, e, t', x);
        } else {
          FindUnlinked(d.cmp, t, e, t', x);
        }
      }
    }
  }

  // Safety and agreement in every run of any number of threads.
  lemma EveryRunIsSafe(d: Table, states: seq<State>, who: seq<nat>)
    requires TotalOrder(d.cmp) && Run(d, states, who) && Start(d, states[0])
    ensures var s := states[|who|];
            && Shaped(s)
            && NoKeyTwice(s) && ByHash(d, s)
            && (s.noObjects + Dues(s.threads)) % WORD == Sum(s.bucketSize) % WORD
            && ((forall p :: 0 <= p < |s.threads| ==> s.threads[p].Idle?) ==>
                s.noObjects == Sum(s.bucketSize) % WORD
                && forall h :: 0 <= h < |s.trees| ==> s.bucketSize[h] == |EntriesOf(s.trees[h])| % WORD)
  {
    hide Start, Moves, TreesSound, EntriesOf, Dues, Sum;
    RunKeeps(d, states, who);
    Safe(d, states[|who|]);
    if forall p :: 0 <= p < |states[|who|].threads| ==> states[|who|].threads[p].Idle? {
      AgreeWhenIdle(d, states[|who|]);
    }
  }

  // ---------- Runs are serial ----------

  // A call and what it returned
  datatype Done = Done(call: Call, answer: Answer)

  // The calls of a run in the order in which they took effect
  ghost function History(d: Table, states: seq<State>, who: seq<nat>): seq<Done>
    requires Run(d, states, who)
  {
    if who == [] then []
    else
      var n := |who| - 1;
      var p := who[n];
      RunPrefix(d, states, who);
      var before := History(d, states[..|who|], who[..n]);
      if !Decided(states[n].threads[p]) && p < |states[n + 1].threads| && Decided(states[n + 1].threads[p])
      then before + [Done(states[n + 1].threads[p].call, states[n + 1].threads[p].answer)]
      else before
  }

  lemma RunPrefix(d: Table, states: seq<State>, who: seq<nat>)
    requires Run(d, states, who) && who != []
    ensures Run(d, states[..|who|], who[..|who| - 1])
    ensures Moves(d, states[|who| - 1], who[|who| - 1], states[|who|])
  {
    hide Moves;
    var n := |who| - 1;
    forall i {:trigger who[..n][i]} | 0 <= i < n
      ensures Moves(d, states[..|who|][i], who[..n][i], states[..|who|][i + 1])
    {
      assert who[i] == who[..n][i];
    }
  }

  // What the table holds for x after the calls of h, one after the other
  ghost function After(d: Table, s: State, h: seq<Done>, x: Key): Option<Data>
    requires Shaped(s)
  {
    if h == [] then Lookup(d, s, x)
    else
      var last, before := h[|h| - 1], After(d, s, h[..|h| - 1], x);
      if last.call.key == x then Effect(last.call, before) else before
  }

  // Each call got the answer of a table without other threads.
  ghost predicate Legal(d: Table, s: State, h: seq<Done>)
    requires Shaped(s)
  {
    h == [] ||
    var last, before := h[|h| - 1], h[..|h| - 1];
    Legal(d, s, before) && last.answer == Reply(last.call, After(d, s, before, last.call.key))
  }

  // Every run of any number of threads is serial: its calls, in the order in
  // which they took effect, get the answers of calls made one after the other,
  // and leave the same keys with the same data pointers.
  lemma {:induction false} RunIsSerial(d: Table, states: seq<State>, who: seq<nat>)
    requires TotalOrder(d.cmp) && Run(d, states, who) && Start(d, states[0])
    ensures Shaped(states[0]) && Shaped(states[|who|])
    ensures Legal(d, states[0], History(d, states, who))
    ensures forall x :: Lookup(d, states[|who|], x) == After(d, states[0], History(d, states, who), x)
  {
    hide Moves, Inv, Start, Lookup, Step, Reply, Effect;
    RunKeeps(d, states, who);
    InvShaped(d, states[|who|]);
    StartHolds(d, states[0]);
    InvShaped(d, states[0]);
    if who == [] {
    } else {
      var n := |who| - 1;
      RunPrefix(d, states, who);
      assert states[..|who|][0] == states[0] && states[..|who|][n] == states[n];
      RunIsSerial(d, states[..|who|], who[..n]);
      RunKeeps(d, states[..|who|], who[..n]);
      MoveIsAtomic(d, states[n], who[n], states[|who|]);
    }
  }

  lemma InvShaped(d: Table, s: State)
    requires Inv(d, s)
    ensures Shaped(s)
  {
  }

  lemma MoveIsAtomic(d: Table, s: State, p: nat, s': State)
    requires TotalOrder(d.cmp) && Inv(d, s) && Moves(d, s, p, s')
    ensures Shaped(s) && Shaped(s') && p < |s.threads| == |s'.threads|
    ensures var a, a' := s.threads[p], s'.threads[p];
            if !Decided(a) && Decided(a') then
              && a'.answer == Reply(a'.call, Lookup(d, s, a'.call.key))
              && forall x :: Lookup(d, s', x) ==
                   if x == a'.call.key then Effect(a'.call, Lookup(d, s, x)) else Lookup(d, s, x)
            else forall x :: Lookup(d, s', x) == Lookup(d, s, x)
  {
    hide Lookup, Step, Reply, Effect;
    CallsAreAtomic(d, s, p, s');
  }
}
