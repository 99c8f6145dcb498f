/** Byte strings and the order std::string_view gives them. */
module Keys {

  type Byte = b: int | 0 <= b < 256
  type Key = seq<Byte>
  type Value = seq<Byte>

  datatype Option<+T> = None | Some(value: T)

  /** a < b, both being equal up to position i: bytes compare unsigned, and a proper prefix is smaller. */
  predicate LessFrom(a: Key, b: Key, i: nat)
    requires i <= |a| && i <= |b|
    decreases |a| - i
  {
    if i == |b| then false
    else if i == |a| then true
    else if a[i] != b[i] then a[i] < b[i]
    else LessFrom(a, b, i + 1)
  }

  predicate Less(a: Key, b: Key) {
    LessFrom(a, b, 0)
  }

  /** The first i bytes are alike, and then a ends or has the smaller byte. */
  predicate SmallerAt(a: Key, b: Key, i: nat) {
    i <= |a| && i < |b| && a[..i] == b[..i] && (i < |a| ==> a[i] < b[i])
  }

  lemma AlikeBefore(a: Key, b: Key, i: nat)
    requires SmallerAt(a, b, i)
    ensures forall k :: 0 <= k < i ==> a[k] == b[k]
  {
    forall k | 0 <= k < i ensures a[k] == b[k] {
      assert a[..i][k] == b[..i][k];
    }
  }

  lemma {:induction false} LessFromExact(a: Key, b: Key, i: nat)
    requires i <= |a| && i <= |b| && a[..i] == b[..i]
    ensures LessFrom(a, b, i) <==> exists j: nat :: i <= j && SmallerAt(a, b, j)
    decreases |a| - i
  {
    if i < |a| && i < |b| && a[i] == b[i] {
      assert a[..i + 1] == a[..i] + [a[i]] && b[..i + 1] == b[..i] + [b[i]];
      LessFromExact(a, b, i + 1);
    } else if i < |b| && (i == |a| || a[i] < b[i]) {
      assert SmallerAt(a, b, i);
    } else {
      forall j: nat | i <= j && SmallerAt(a, b, j) ensures i == j {
        AlikeBefore(a, b, j);
      }
    }
  }

  /** The order is that of the first difference. */
  lemma LessExact(a: Key, b: Key)
    ensures Less(a, b) <==> exists i: nat :: SmallerAt(a, b, i)
  {
    LessFromExact(a, b, 0);
  }

  lemma {:induction false} LessFromIrreflexive(a: Key, i: nat)
    requires i <= |a|
    ensures !LessFrom(a, a, i)
    decreases |a| - i
  {
    if i < |a| {
      LessFromIrreflexive(a, i + 1);
    }
  }

  lemma {:induction false} LessFromTransitive(a: Key, b: Key, c: Key, i: nat)
    requires i <= |a| && i <= |b| && i <= |c|
    requires LessFrom(a, b, i) && LessFrom(b, c, i)
    ensures LessFrom(a, c, i)
    decreases |a| - i
  {
    if i < |a| && i < |c| && a[i] == b[i] == c[i] {
      LessFromTransitive(a, b, c, i + 1);
    }
  }

  lemma {:induction false} LessFromTotal(a: Key, b: Key, i: nat)
    requires i <= |a| && i <= |b| && a[..i] == b[..i]
    ensures LessFrom(a, b, i) || a == b || LessFrom(b, a, i)
    decreases |a| - i
  {
    if i < |a| && i < |b| && a[i] == b[i] {
      assert a[..i + 1] == a[..i] + [a[i]] && b[..i + 1] == b[..i] + [b[i]];
      LessFromTotal(a, b, i + 1);
    } else if i == |a| == |b| {
      assert a == a[..i] && b == b[..i];
    }
  }

  /** The key order is a strict total order whose least element is the empty key. */
  lemma Order()
    ensures forall a: Key {:trigger Less(a, a)} :: !Less(a, a)
    ensures forall a: Key, b: Key, c: Key {:trigger Less(a, b), Less(b, c)} :: Less(a, b) && Less(b, c) ==> Less(a, c)
    ensures forall a: Key, b: Key {:trigger Less(a, b)} :: Less(a, b) || a == b || Less(b, a)
  {
    forall a: Key ensures !Less(a, a) {
      LessFromIrreflexive(a, 0);
    }
    forall a: Key, b: Key, c: Key | Less(a, b) && Less(b, c) ensures Less(a, c) {
      LessFromTransitive(a, b, c, 0);
    }
    forall a: Key, b: Key ensures Less(a, b) || a == b || Less(b, a) {
      LessFromTotal(a, b, 0);
    }
  }
}
