// Keys, data and return codes shared by every collision engine.

module Keys {

  // A key is the value that the table's key_cmp looks at, so that two keys
  // compare equal exactly when they are the same value.  insert copies the
  // bytes of a key, which makes stored keys values as well.
  type Key(==, !new)

  // The caller's data pointer, which the library stores and returns untouched.
  type Data(==, !new)

  // A key_cmp function: the sign of the result orders the two keys.
  type Cmp = (Key, Key) -> int

  // What every engine needs of key_cmp: zero exactly on equal keys.
  ghost predicate DecidesEquality(cmp: Cmp) {
    forall a, b :: cmp(a, b) == 0 <==> a == b
  }

  // What the tree engine needs of key_cmp in addition: a strict total order.
  ghost predicate TotalOrder(cmp: Cmp) {
    && DecidesEquality(cmp)
    && (forall a, b :: cmp(a, b) < 0 <==> cmp(b, a) > 0)
    && (forall a, b, c :: cmp(a, b) > 0 && cmp(b, c) > 0 ==> cmp(a, c) > 0)
  }

  lemma {:induction false} CmpFlip(cmp: Cmp, a: Key, b: Key)
    requires TotalOrder(cmp)
    ensures cmp(a, b) < 0 <==> cmp(b, a) > 0
  {
  }

  lemma {:induction false} CmpZero(cmp: Cmp, a: Key, b: Key)
    requires TotalOrder(cmp)
    ensures cmp(a, b) == 0 <==> a == b
  {
  }

  lemma {:induction false} CmpTrans(cmp: Cmp, a: Key, b: Key, c: Key)
    requires TotalOrder(cmp) && cmp(a, b) > 0 && cmp(b, c) > 0
    ensures cmp(a, c) > 0
  {
  }

  datatype Code = Success | ErrSystem | ErrNoData | ErrInternal | ErrNoKey | ErrDupKey | ErrRange

  datatype Option<+T> = None | Some(value: T)
}
