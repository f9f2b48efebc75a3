// One bucket of the ARRAY engine (lib/hi_array.c): a growing array with holes.

module ArrayEngine {
  import opened Counters
  import opened Keys
  import opened Entries

  // hi_bucket_a_obj_t: BA_NOT_ALLOCATED, or BA_ALLOCATED with its key and data
  datatype Slot = Free | Used(entry: Entry)

  // The allocated entries of the slots, in order.
  ghost function Allocated(s: seq<Slot>): seq<Entry> {
    if s == [] then []
    else if s[0].Free? then Allocated(s[1..])
    else [s[0].entry] + Allocated(s[1..])
  }

  lemma {:induction false} AllocatedAppend(s: seq<Slot>, t: seq<Slot>)
    ensures Allocated(s + t) == Allocated(s) + Allocated(t)
  {
    if s == [] {
      assert s + t == t;
    } else {
      assert (s + t)[1..] == s[1..] + t;
      AllocatedAppend(s[1..], t);
    }
  }

  lemma {:induction false} AllocatedAt(s: seq<Slot>, i: nat)
    requires i < |s|
    ensures Allocated(s) ==
      Allocated(s[..i]) + (if s[i].Free? then [] else [s[i].entry]) + Allocated(s[i + 1..])
  {
    assert s == s[..i] + ([s[i]] + s[i + 1..]);
    AllocatedAppend(s[..i], [s[i]] + s[i + 1..]);
    AllocatedAppend([s[i]], s[i + 1..]);
    assert Allocated([s[i]]) == if s[i].Free? then [] else [s[i].entry];
  }

  lemma AllocatedNext(s: seq<Slot>, i: nat)
    requires i < |s|
    ensures Allocated(s[..i + 1]) == Allocated(s[..i]) + if s[i].Used? then [s[i].entry] else []
  {
    assert s[..i + 1] == s[..i] + [s[i]];
    AllocatedAppend(s[..i], [s[i]]);
  }

  lemma {:induction false} AllocatedBound(s: seq<Slot>)
    ensures |Allocated(s)| <= |s|
    ensures |Allocated(s)| == |s| <==> forall i :: 0 <= i < |s| ==> s[i].Used?
  {
    if s == [] {
    } else {
      AllocatedBound(s[1..]);
      assert forall i :: 0 < i < |s| ==> s[i] == s[1..][i - 1];
    }
  }

  // ---------- Where entries lie ----------

  // The position of the first free slot, if any
  ghost function FirstFree(s: seq<Slot>): (i: nat)
    ensures i <= |s| && (forall j :: 0 <= j < i ==> s[j].Used?) && (i < |s| ==> s[i].Free?)
  {
    if s == [] || s[0].Free? then 0 else 1 + FirstFree(s[1..])
  }

  // A full array is doubled, and the entry goes to the first free slot.
  ghost function Roomy(s: seq<Slot>): (r: seq<Slot>)
    ensures s <= r
    ensures s != [] ==> FirstFree(r) < |r|
  {
    var r := if FirstFree(s) < |s| then s else s + seq(|s|, _ => Free);
    assert FirstFree(s) == |s| && s != [] ==> r[|s|].Free?;
    r
  }

  ghost function Occupied(s: seq<Slot>, e: Entry): seq<Slot>
    requires s != []
  {
    Roomy(s)[FirstFree(Roomy(s)) := Used(e)]
  }

  // The slot of a key is marked as free.
  ghost function Vacated(s: seq<Slot>, key: Key): (r: seq<Slot>)
    ensures |r| == |s|
  {
    seq(|s|, i requires 0 <= i < |s| => if s[i].Used? && s[i].entry.key == key then Free else s[i])
  }

  lemma InAllocated(s: seq<Slot>, i: nat)
    requires i < |s| && s[i].Used?
    ensures s[i].entry in Allocated(s)
  {
    AllocatedAt(s, i);
  }

  lemma VacatedMissing(s: seq<Slot>, key: Key)
    requires key !in Dict(Allocated(s))
    ensures Vacated(s, key) == s
  {
    hide Dict;
    DictKeys(Allocated(s));
    forall i | 0 <= i < |s| ensures Vacated(s, key)[i] == s[i] {
      if s[i].Used? {
        InAllocated(s, i);
      }
    }
  }

  // At most one slot has the key.
  lemma VacatedAt(s: seq<Slot>, i: nat)
    requires Unique(Allocated(s)) && i < |s| && s[i].Used?
    ensures Vacated(s, s[i].entry.key) == s[i := Free]
  {
    hide Unique;
    forall j | 0 <= j < |s| ensures Vacated(s, s[i].entry.key)[j] == s[i := Free][j] {
      if s[j].Used? && i < j {
        OneSlot(s, i, j);
      } else if s[j].Used? && j < i {
        OneSlot(s, j, i);
      }
    }
  }

  lemma OneSlot(s: seq<Slot>, i: nat, j: nat)
    requires Unique(Allocated(s)) && i < j < |s| && s[i].Used? && s[j].Used?
    ensures s[i].entry.key != s[j].entry.key
  {
    AllocatedAt(s, j);
    InAllocated(s[..j], i);
    var k :| 0 <= k < |Allocated(s[..j])| && Allocated(s[..j])[k] == s[i].entry;
    assert Allocated(s)[k] == s[i].entry && Allocated(s)[|Allocated(s[..j])|] == s[j].entry;
  }

  // No hole lies among the first slots, as many as are allocated.
  ghost predicate Gapless(s: seq<Slot>) {
    |Allocated(s)| <= |s| && forall i :: 0 <= i < |Allocated(s)| ==> s[i].Used?
  }

  // Without a hole the allocated slots are exactly the first ones.
  lemma GaplessSlots(s: seq<Slot>)
    requires Gapless(s)
    ensures forall i :: 0 <= i < |s| ==> (s[i].Used? <==> i < |Allocated(s)|)
    ensures FirstFree(s) == |Allocated(s)|
  {
    var n := |Allocated(s)|;
    assert s == s[..n] + s[n..];
    AllocatedAppend(s[..n], s[n..]);
    AllocatedBound(s[..n]);
    assert forall i :: 0 <= i < n ==> s[..n][i] == s[i];
    assert Allocated(s[n..]) == [];
    NothingAllocated(s[n..]);
    assert forall i :: n <= i < |s| ==> s[i] == s[n..][i - n];
  }

  lemma {:induction false} NothingAllocated(s: seq<Slot>)
    requires Allocated(s) == []
    ensures forall i :: 0 <= i < |s| ==> s[i].Free?
  {
    if s == [] {
    } else {
      NothingAllocated(s[1..]);
      assert forall i :: 0 < i < |s| ==> s[i] == s[1..][i - 1];
    }
  }

  // An insert never makes a hole.
  lemma OccupiedGapless(s: seq<Slot>, e: Entry)
    requires s != [] && Gapless(s)
    ensures Gapless(Occupied(s, e)) && |Allocated(Occupied(s, e))| == |Allocated(s)| + 1
  {
    GaplessSlots(s);
    var r, i := Roomy(s), FirstFree(Roomy(s));
    if r != s {
      AllocatedAppend(s, r[|s|..]);
      NoneAllocated(r[|s|..]);
      assert r == s + r[|s|..];
    }
    assert i == |Allocated(s)|;
    AllocatedAt(r, i);
    var u := r[i := Used(e)];
    AllocatedAt(u, i);
    assert u[..i] == r[..i] && u[i + 1..] == r[i + 1..];
  }

  // A remove makes a hole unless it frees the last of the allocated slots.
  lemma VacatedGapless(s: seq<Slot>, i: nat)
    requires Gapless(s) && i < |s| && s[i].Used?
    ensures |Allocated(s[i := Free])| == |Allocated(s)| - 1
    ensures Gapless(s[i := Free]) <==> i == |Allocated(s)| - 1
  {
    GaplessSlots(s);
    var u := s[i := Free];
    AllocatedAt(s, i);
    AllocatedAt(u, i);
    assert u[..i] == s[..i] && u[i + 1..] == s[i + 1..];
  }

  lemma LastSlot(s: seq<Slot>, i: nat)
    requires Gapless(s) && Unique(Allocated(s)) && i < |s| && s[i].Used?
    ensures 0 < |Allocated(s)| <= |s|
    ensures Gapless(s[i := Free]) <==> s[|Allocated(s)| - 1] == s[i]
  {
    hide Unique;
    GaplessSlots(s);
    VacatedGapless(s, i);
    var n := |Allocated(s)| - 1;
    if i < n && s[n] == s[i] {
      OneSlot(s, i, n);
    }
  }

  class ArrayBucket {
    var slots: array<Slot>       // bucket_array[bucket]
    var slotSize: nat            // bucket_array_slot_size[bucket]
    var slotMax: nat             // bucket_array_slot_max[bucket]
    ghost var contents: map<Key, Data>
    ghost var Repr: set<object>

    // lhi_create_eng_array for one bucket
    constructor (capacity: nat)
      requires 0 < capacity < WORD
      ensures Valid() && fresh(Repr) && contents == map[] && slotMax == capacity
      ensures Compact() && slots[..] == seq(capacity, _ => Free)
    {
      var a := new Slot[capacity];
      for j := 0 to capacity
        invariant forall k :: 0 <= k < j ==> a[k].Free?
      {
        a[j] := Free;
      }
      slots, slotSize, slotMax := a, 0, capacity;
      contents, Repr := map[], {this, a};
      new;
      NoneAllocated(slots[..]);
    }

    ghost function Entries(): seq<Entry>
      reads this, slots
    {
      Allocated(slots[..])
    }

    ghost predicate Valid()
      reads this, Repr
      ensures Valid() ==> this in Repr
    {
      && Repr == {this, slots}
      && slots.Length == slotMax && 0 < slotMax < WORD
      && slotSize == |Entries()| && Unique(Entries())
      && contents == Dict(Entries())
    }

    // No hole among the first slot_size slots.
    ghost predicate Compact()
      requires Valid()
      reads this, Repr
    {
      Gapless(slots[..])
    }

    // Doubling a full array does not overflow its 32-bit capacity.
    ghost predicate MayGrow()
      reads this
    {
      slotSize >= slotMax ==> slotMax < WORD / 2
    }

    lemma RoomToGrow()
      requires Valid() && |contents| < WORD / 2
      ensures MayGrow()
    {
      DictSize(Entries());
    }

    // The loop that lhi_get_array and lhi_remove_array share.  It gives up as
    // soon as it has seen slot_size allocated slots.
    method Find(cmp: Cmp, key: Key) returns (found: bool, i: nat)
      requires Valid() && DecidesEquality(cmp)
      ensures found <==> key in contents
      ensures found ==> i < slots.Length && slots[i].Used? && slots[i].entry.key == key
      ensures found ==> contents[key] == slots[i].entry.data
    {
      var checked := 0;
      i := 0;
      DictKeys(Entries());
      while i < slotMax
        invariant i <= slotMax && checked == |Allocated(slots[..i])|
        invariant forall j :: 0 <= j < checked ==> Allocated(slots[..i])[j].key != key
      {
        assert slots[..] == slots[..i] + slots[i..];
        AllocatedAppend(slots[..i], slots[i..]);
        AllocatedAt(slots[..], i);
        if checked >= slotSize {
          return false, i;
        }
        assert slots[..i + 1] == slots[..i] + [slots[i]];
        AllocatedAppend(slots[..i], [slots[i]]);
        if slots[i].Used? {
          if cmp(key, slots[i].entry.key) == 0 {
            assert Entries()[checked] == slots[i].entry;
            DictAt(Entries(), checked);
            return true, i;
          }
          checked := checked + 1;
        }
        i := i + 1;
      }
      assert slots[..i] == slots[..];
      return false, i;
    }

    // lhi_get_array
    method Get(cmp: Cmp, key: Key) returns (code: Code, data: Option<Data>)
      requires Valid() && DecidesEquality(cmp)
      ensures code == if key in contents then Success else ErrNoKey
      ensures data == if key in contents then Some(contents[key]) else None
    {
      var found, i := Find(cmp, key);
      if found {
        return Success, Some(slots[i].entry.data);
      }
      return ErrNoKey, None;
    }

    // lhi_remove_array
    method Remove(cmp: Cmp, key: Key) returns (code: Code, data: Option<Data>)
      requires Valid() && DecidesEquality(cmp)
      modifies Repr
      ensures Valid() && Repr == old(Repr)
      ensures code == if key in old(contents) then Success else ErrNoKey
      ensures data == if key in old(contents) then Some(old(contents)[key]) else None
      ensures contents == old(contents) - {key}
      ensures slots[..] == Vacated(old(slots[..]), key)
      ensures old(Compact()) && code == Success ==>
        (Compact() <==> old(slots[slotSize - 1]) == Used(Entry(key, data.value)))
    {
      hide Dict, Unique, Gapless, Vacated;
      var found, i := Find(cmp, key);
      if !found {
        VacatedMissing(slots[..], key);
        return ErrNoKey, None;
      }
      VacatedAt(slots[..], i);
      InAllocated(slots[..], i);
      data := Some(slots[i].entry.data);
      if Compact() {
        LastSlot(slots[..], i);
      }
      ghost var s := slots[..];
      slots[i] := Free;
      slotSize := slotSize - 1;
      contents := contents - {key};
      FreeOne(s, i);
      assert slots[..] == s[i := Free];
      return Success, data;
    }

    // realloc, and the loop that marks the new slots as free
    static method Enlarged(a: array<Slot>, max: nat) returns (bigger: array<Slot>)
      requires a.Length <= max
      ensures fresh(bigger) && bigger[..] == a[..] + seq(max - a.Length, _ => Free)
      ensures Allocated(bigger[..]) == Allocated(a[..])
    {
      bigger := new Slot[max];
      forall k | 0 <= k < a.Length {
        bigger[k] := a[k];
      }
      for i := a.Length to max
        invariant bigger[..a.Length] == a[..]
        invariant forall j :: a.Length <= j < i ==> bigger[j].Free?
      {
        bigger[i] := Free;
      }
      assert bigger[..] == bigger[..a.Length] + bigger[a.Length..] && bigger[a.Length..] == seq(max - a.Length, _ => Free);
      AllocatedAppend(a[..], bigger[a.Length..]);
      NoneAllocated(bigger[a.Length..]);
    }

    // The part of lhi_insert_array that doubles a full array.
    method Grow()
      requires Valid() && MayGrow()
      modifies this
      ensures Valid() && contents == old(contents) && slotSize == old(slotSize) < slotMax
      ensures slots[..] == Roomy(old(slots[..]))
      ensures Entries() == old(Entries()) && fresh(Repr - old(Repr))
      ensures slotMax == if slotSize >= old(slotMax) then 2 * old(slotMax) else old(slotMax)
    {
      AllocatedBound(slots[..]);
      if slotSize >= slotMax {
        slotMax := 2 * slotMax;
        slots := Enlarged(slots, slotMax);
        Repr := {this, slots};
      }
    }

    // The loop of lhi_insert_array over the slots
    method FreeSlot() returns (i: nat)
      requires Valid()
      ensures i == FirstFree(slots[..])
    {
      i := 0;
      while i < slotMax
        invariant i <= slotMax && forall j :: 0 <= j < i ==> slots[j].Used?
      {
        if slots[i].Free? {
          return;
        }
        i := i + 1;
      }
    }

    // lhi_insert_array
    method Insert(cmp: Cmp, key: Key, data: Data) returns (code: Code)
      requires Valid() && DecidesEquality(cmp) && MayGrow()
      modifies Repr
      ensures Valid() && fresh(Repr - old(Repr))
      ensures code == if key in old(contents) then ErrDupKey else Success
      ensures contents == if code == Success then old(contents)[key := data] else old(contents)
      ensures slots[..] == if code == Success then Occupied(old(slots[..]), Entry(key, data)) else old(slots[..])
      ensures old(Compact()) ==> Compact()
    {
      hide Dict, Unique, Gapless, Roomy, Allocated;
      var found, ignored := Get(cmp, key);
      if found == Success {
        return ErrDupKey;
      }
      if Compact() {
        OccupiedGapless(slots[..], Entry(key, data));
      }
      Grow();
      var i := FreeSlot();
      if i < slotMax {
        ghost var s := slots[..];
        slots[i] := Used(Entry(key, data));
        slotSize := slotSize + 1;
        contents := contents[key := data];
        UseOne(s, i, Entry(key, data));
        assert slots[..] == s[i := Used(Entry(key, data))];
        return Success;
      }
      return ErrInternal;    // never reached: the contract excludes this code
    }

    // lhi_array_bucket_to_array: the loop looks at the first slot_size slots
    // only, and skips the holes among them.  The snapshot is complete exactly
    // when there are none.
    method ToArray() returns (code: Code, a: array<Option<Entry>>)
      requires Valid()
      ensures fresh(a)
      ensures code == if contents == map[] then ErrNoData else Success
      ensures code == Success ==> a.Length == |contents|
      ensures code == Success ==> (Snapshot(a[..], contents) <==> Compact())
    {
      hide Dict, Unique, Snapshot, Allocated;
      AllocatedBound(slots[..]);
      DictSize(Entries());
      a := new Option<Entry>[slotSize](_ => None);
      if slotSize == 0 {
        return ErrNoData, a;
      }
      AllocatedBound(slots[..0]);
      var j := 0;
      for i := 0 to slotSize
        invariant j == |Allocated(slots[..i])| <= i
        invariant forall k :: 0 <= k < slotSize ==> a[k] == if k < j then Some(Allocated(slots[..i])[k]) else None
      {
        AllocatedNext(slots[..], i);
        assert slots[..][..i] == slots[..i] && slots[..][..i + 1] == slots[..i + 1];
        if slots[i].Free? {
          continue;
        }
        a[j] := Some(slots[i].entry);
        j := j + 1;
      }
      assert slots[..][..slotSize] == slots[..slotSize];
      SnapshotIff(slots[..], a[..]);
      code := Success;
    }
  }

  // The snapshot of an array bucket holds every entry exactly when no hole lies
  // among its first slot_size slots.
  lemma {:induction false} SnapshotComplete(s: seq<Slot>)
    ensures |Allocated(s)| <= |s|
    ensures var n := |Allocated(s)|;
      Allocated(s[..n]) == Allocated(s) <==> forall i :: 0 <= i < n ==> s[i].Used?
  {
    var n := |Allocated(s)|;
    AllocatedBound(s);
    assert s == s[..n] + s[n..];
    AllocatedAppend(s[..n], s[n..]);
    AllocatedBound(s[..n]);
    assert forall i :: 0 <= i < n ==> s[..n][i] == s[i];
    assert |Allocated(s[..n])| == n ==> Allocated(s[n..]) == [];
  }

  // For instance, once the first of two entries has been removed: the snapshot
  // has one slot, for the entry that is left, and the loop does not reach it.
  lemma HoleHidesEntry(e: Entry)
    ensures var s := [Free, Used(e)];
      Allocated(s) == [e] && Allocated(s[..|Allocated(s)|]) == [] && !Gapless(s) && !Snapshot([None], Dict(Allocated(s)))
  {
    var s := [Free, Used(e)];
    AllocatedAt(s, 0);
    AllocatedAt(s, 1);
    assert s[1..][1..] == [] && s[..1][1..] == [] && s[1..][0] == Used(e);
    var a: seq<Option<Entry>> := [None];
    assert a[0].None?;
  }

  lemma {:induction false} SnapshotIff(s: seq<Slot>, a: seq<Option<Entry>>)
    requires Unique(Allocated(s)) && |a| == |Allocated(s)| <= |s|
    requires var seen := Allocated(s[..|a|]);
      forall j :: 0 <= j < |a| ==> a[j] == if j < |seen| then Some(seen[j]) else None
    ensures Snapshot(a, Dict(Allocated(s))) <==> forall i :: 0 <= i < |a| ==> s[i].Used?
  {
    hide Dict, Unique;
    var seen := Allocated(s[..|a|]);
    SnapshotComplete(s);
    AllocatedBound(s[..|a|]);
    if forall i :: 0 <= i < |a| ==> s[i].Used? {
      assert forall i :: 0 <= i < |a| ==> a[i] == Some(seen[i]);
      assert Values(a) == Allocated(s);
    } else {
      assert |seen| < |a| by {
        assert forall i :: 0 <= i < |a| ==> s[..|a|][i] == s[i];
      }
      assert a[|seen|] == None;
    }
  }

  method TwoInserts(cmp: Cmp, first: Entry, second: Entry) returns (b: ArrayBucket)
    requires DecidesEquality(cmp) && first.key != second.key
    ensures b.Valid() && fresh(b.Repr)
    ensures b.contents == map[first.key := first.data, second.key := second.data]
    ensures b.slots[..] == [Used(first), Used(second)]
  {
    hide Dict, Unique, Occupied, Roomy, Gapless;
    TwoSlots(first, second);
    b := new ArrayBucket(2);
    assert b.slots[..] == [Free, Free];
    var code := b.Insert(cmp, first.key, first.data);
    code := b.Insert(cmp, second.key, second.data);
  }

  // Two inserts and a remove reach such a bucket: the key that is left is in the
  // table, and the snapshot does not show it.
  method ReachHole(cmp: Cmp, first: Entry, second: Entry) returns (b: ArrayBucket, a: array<Option<Entry>>)
    requires DecidesEquality(cmp) && first.key != second.key
    ensures b.Valid() && b.contents == map[second.key := second.data]
    ensures b.slots[..] == [Free, Used(second)]
    ensures a.Length == 1 && !Snapshot(a[..], b.contents)
  {
    hide Dict, Unique, Snapshot, Vacated, Gapless, Allocated;
    TwoSlots(first, second);
    b := TwoInserts(cmp, first, second);
    var code, data := b.Remove(cmp, first.key);
    HoleHidesEntry(second);
    assert second.key in b.contents && |b.contents| == 1;
    assert b.slots[..] == [Free, Used(second)] && !b.Compact();
    code, a := b.ToArray();
  }

  lemma TwoSlots(first: Entry, second: Entry)
    requires first.key != second.key
    ensures Occupied([Free, Free], first) == [Used(first), Free]
    ensures Occupied([Used(first), Free], second) == [Used(first), Used(second)]
    ensures Vacated([Used(first), Used(second)], first.key) == [Free, Used(second)]
    ensures |Allocated([Free, Free])| == 0 && |Allocated([Used(first), Free])| == 1
  {
    AllocatedAt([Used(first), Free], 0);
    AllocatedAt([Used(first), Free], 1);
    NoneAllocated([Free, Free]);
    assert [Free, Free][1..] == [Free];
    NoneAllocated([Free]);
    assert [Used(first), Free][1..] == [Free] && [Used(first), Free][..1] == [Used(first)];
  }

  lemma {:induction false} NoneAllocated(s: seq<Slot>)
    requires forall i :: 0 <= i < |s| ==> s[i].Free?
    ensures Allocated(s) == []
  {
    if s == [] {
    } else {
      NoneAllocated(s[1..]);
    }
  }

  lemma {:induction false} FreeOne(s: seq<Slot>, i: nat)
    requires i < |s| && s[i].Used? && Unique(Allocated(s))
    ensures var t := s[i := Free];
      && Unique(Allocated(t)) && |Allocated(t)| == |Allocated(s)| - 1
      && Dict(Allocated(t)) == Dict(Allocated(s)) - {s[i].entry.key}
  {
    var t := s[i := Free];
    AllocatedAt(s, i);
    AllocatedAt(t, i);
    assert t[..i] == s[..i] && t[i + 1..] == s[i + 1..];
    var a, b := Allocated(s[..i]), Allocated(s[i + 1..]);
    assert Allocated(t) == a + b;
    UniqueWithout(a, s[i].entry, b);
    DictInsert(a, s[i].entry, b);
  }

  lemma {:induction false} UseOne(s: seq<Slot>, i: nat, e: Entry)
    requires i < |s| && s[i].Free? && Unique(Allocated(s)) && e.key !in Dict(Allocated(s))
    ensures var t := s[i := Used(e)];
      && Unique(Allocated(t)) && |Allocated(t)| == |Allocated(s)| + 1
      && Dict(Allocated(t)) == Dict(Allocated(s))[e.key := e.data]
  {
    var t := s[i := Used(e)];
    AllocatedAt(s, i);
    AllocatedAt(t, i);
    assert t[..i] == s[..i] && t[i + 1..] == s[i + 1..];
    var a, b := Allocated(s[..i]), Allocated(s[i + 1..]);
    assert Allocated(s) == a + b;
    DictKeys(a + b);
    DictInsert(a, e, b);
  }
}
