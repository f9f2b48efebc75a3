// Key/data pairs, and the finite map that a sequence of them stands for.

module Entries {
  import opened Keys

  datatype Entry = Entry(key: Key, data: Data)

  ghost predicate Unique(es: seq<Entry>) {
    forall i, j :: 0 <= i < j < |es| ==> es[i].key != es[j].key
  }

  ghost function Dict(es: seq<Entry>): map<Key, Data> {
    if es == [] then map[] else Dict(es[1..])[es[0].key := es[0].data]
  }

  lemma {:induction false} DictKeys(es: seq<Entry>)
    ensures forall k :: k in Dict(es) <==> exists i :: 0 <= i < |es| && es[i].key == k
  {
    if es == [] {
    } else {
      DictKeys(es[1..]);
      forall k
        ensures k in Dict(es) <==> exists i :: 0 <= i < |es| && es[i].key == k
      {
        if k in Dict(es[1..]) {
          var i :| 0 <= i < |es[1..]| && es[1..][i].key == k;
          assert es[i + 1].key == k;
        }
        if i :| 0 <= i < |es| && es[i].key == k && i > 0 {
          assert es[1..][i - 1].key == k;
        }
      }
    }
  }

  // The pairs of the map are exactly the entries of the sequence.
  lemma {:induction false} DictAt(es: seq<Entry>, i: nat)
    requires Unique(es) && i < |es|
    ensures es[i].key in Dict(es) && Dict(es)[es[i].key] == es[i].data
  {
    if i == 0 {
    } else {
      assert es[1..][i - 1] == es[i];
      DictAt(es[1..], i - 1);
    }
  }

  lemma {:induction false} DictSize(es: seq<Entry>)
    requires Unique(es)
    ensures |Dict(es)| == |es|
  {
    if es == [] {
    } else {
      DictSize(es[1..]);
      DictKeys(es[1..]);
      assert forall i :: 0 <= i < |es[1..]| ==> es[1..][i] == es[i + 1];
    }
  }

  // Two sequences with the same entries stand for the same map.
  lemma {:induction false} DictSame(es: seq<Entry>, fs: seq<Entry>)
    requires Unique(es) && Unique(fs) && forall e :: e in es <==> e in fs
    ensures Dict(es) == Dict(fs)
  {
    DictKeys(es);
    DictKeys(fs);
    forall i | 0 <= i < |es|
      ensures es[i].key in Dict(fs) && Dict(es)[es[i].key] == Dict(fs)[es[i].key]
    {
      assert es[i] in fs;
      var j :| 0 <= j < |fs| && fs[j] == es[i];
      DictAt(es, i);
      DictAt(fs, j);
    }
    forall j | 0 <= j < |fs|
      ensures fs[j].key in Dict(es)
    {
      assert fs[j] in es;
      var i :| 0 <= i < |es| && es[i] == fs[j];
      DictAt(es, i);
    }
  }

  lemma {:induction false} UniqueInsert(a: seq<Entry>, e: Entry, b: seq<Entry>)
    requires Unique(a + b) && forall f :: f in a + b ==> f.key != e.key
    ensures Unique(a + [e] + b) && Unique([e] + (a + b))
  {
    var ab, s, t := a + b, a + [e] + b, [e] + (a + b);
    forall i, j | 0 <= i < j < |s|
      ensures s[i].key != s[j].key
    {
      assert s[|a|] == e;
      assert i != |a| ==> s[i] == ab[if i < |a| then i else i - 1];
      assert j != |a| ==> s[j] == ab[if j < |a| then j else j - 1];
      assert i != |a| ==> s[i] in ab;
      assert j != |a| ==> s[j] in ab;
    }
    assert forall i, j :: 0 <= i < j < |t| ==> t[i].key != t[j].key;
  }

  // Putting an entry somewhere into the sequence, and reading that backwards,
  // taking one out.
  lemma {:induction false} DictInsert(a: seq<Entry>, e: Entry, b: seq<Entry>)
    requires Unique(a + b) && forall f :: f in a + b ==> f.key != e.key
    ensures Unique(a + [e] + b)
    ensures Dict(a + [e] + b) == Dict(a + b)[e.key := e.data]
    ensures e.key !in Dict(a + b) && Dict(a + b) == Dict(a + [e] + b) - {e.key}
  {
    hide Unique;
    UniqueInsert(a, e, b);
    var ab, s, t := a + b, a + [e] + b, [e] + (a + b);
    assert t[1..] == ab && t[0] == e;
    forall f
      ensures f in s <==> f in t
    {
      assert f in s <==> f in a || f == e || f in b;
      assert f in t <==> f == e || f in a || f in b;
    }
    DictSame(s, t);
    NotInDict(ab, e.key);
    assert Dict(t) == Dict(ab)[e.key := e.data];
  }

  lemma NotInDict(es: seq<Entry>, key: Key)
    requires forall f :: f in es ==> f.key != key
    ensures key !in Dict(es)
  {
    DictKeys(es);
  }

  lemma {:induction false} UniqueWithout(a: seq<Entry>, e: Entry, b: seq<Entry>)
    requires Unique(a + [e] + b)
    ensures Unique(a + b) && forall f :: f in a + b ==> f.key != e.key
  {
    var ab, s := a + b, a + [e] + b;
    assert s[|a|] == e;
    assert forall i :: 0 <= i < |ab| ==> ab[i] == s[if i < |a| then i else i + 1];
  }

  lemma {:induction false} UniqueCount(es: seq<Entry>, e: Entry)
    requires Unique(es)
    ensures multiset(es)[e] <= 1
  {
    if es == [] {
    } else {
      assert es == [es[0]] + es[1..];
      UniqueCount(es[1..], e);
      if es[0] == e {
        assert forall i :: 0 <= i < |es[1..]| ==> es[1..][i] == es[i + 1];
        assert e !in es[1..];
      }
    }
  }

  // Reordering entries keeps the keys unique and the map the same.
  lemma {:induction false} Reordered(es: seq<Entry>, fs: seq<Entry>)
    requires Unique(es) && multiset(es) == multiset(fs)
    ensures Unique(fs) && Dict(fs) == Dict(es) && |fs| == |es|
  {
    assert |multiset(es)| == |es| && |multiset(fs)| == |fs|;
    forall e
      ensures e in es <==> e in fs
    {
      assert e in es <==> e in multiset(es);
      assert e in fs <==> e in multiset(fs);
    }
    forall i, j | 0 <= i < j < |fs|
      ensures fs[i].key != fs[j].key
    {
      if fs[i] == fs[j] {
        var a, b := fs[..j], fs[j..];
        assert fs == a + b && a[i] == fs[i] && b[0] == fs[j];
        assert multiset(fs) == multiset(a) + multiset(b);
        assert multiset(a)[fs[i]] >= 1 && multiset(b)[fs[i]] >= 1;
        UniqueCount(es, fs[i]);
      } else {
        assert fs[i] in es && fs[j] in es;
      }
    }
    DictSame(es, fs);
  }

  // ---------- snapshots ----------

  // The entries in the slots of a snapshot without empty slots.
  ghost function Values(s: seq<Option<Entry>>): (es: seq<Entry>)
    requires forall i :: 0 <= i < |s| ==> s[i].Some?
    ensures |es| == |s| && forall i :: 0 <= i < |s| ==> es[i] == s[i].value
  {
    seq(|s|, i requires 0 <= i < |s| => s[i].value)
  }

  // s has one slot for each pair of m, and no other slot.
  ghost predicate Snapshot(s: seq<Option<Entry>>, m: map<Key, Data>) {
    (forall i :: 0 <= i < |s| ==> s[i].Some?) && Unique(Values(s)) && Dict(Values(s)) == m
  }

  // Without its last slot a snapshot lacks exactly the pair stored there.
  lemma {:induction false} SnapshotLast(s: seq<Option<Entry>>, m: map<Key, Data>)
    requires Snapshot(s, m) && s != []
    ensures s[|s| - 1].Some?
    ensures var e := s[|s| - 1].value;
      e.key in m && m[e.key] == e.data && Snapshot(s[..|s| - 1], m - {e.key})
  {
    var es, n := Values(s), |s| - 1;
    DictAt(es, n);
    assert es == es[..n] + [es[n]] + [];
    assert es[..n] == es[..n] + [];
    assert Values(s[..n]) == es[..n];
    UniqueWithout(es[..n], es[n], []);
    DictInsert(es[..n], es[n], []);
  }

  // A snapshot has as many slots as the map has pairs.
  lemma SnapshotSize(s: seq<Option<Entry>>, m: map<Key, Data>)
    ensures Snapshot(s, m) ==> |s| == |m|
  {
    if Snapshot(s, m) {
      DictSize(Values(s));
    }
  }

  lemma {:induction false} SnapshotEmpty(s: seq<Option<Entry>>, m: map<Key, Data>)
    requires Snapshot(s, m)
    ensures s == [] <==> m == map[]
  {
    DictSize(Values(s));
  }
}
