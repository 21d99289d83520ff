/**
 * Stable sorting by a lexicographic key, the order Arrays.sort gives an
 * object array under a Comparator. `Sort` is the reference definition (an
 * insertion sort); it is proved sorted, a permutation and stable, and any
 * sequence with those three properties is proved to equal it, so it fixes
 * the result of every stable sort. `SortInPlace` sorts an array in place
 * and is proved to produce `Sort` of the old contents.
 */
module StableSort {

  /** A sort key; keys are compared by `major` first and then by `minor`. */
  datatype SortKey = SortKey(major: int, minor: int)

  predicate KeyLe(a: SortKey, b: SortKey) {
    a.major < b.major || (a.major == b.major && a.minor <= b.minor)
  }

  predicate Sorted<T>(s: seq<T>, key: T -> SortKey) {
    forall i, j :: 0 <= i < j < |s| ==> KeyLe(key(s[i]), key(s[j]))
  }

  /** The elements of s whose key is k, in the order of s. */
  function WithKey<T>(s: seq<T>, key: T -> SortKey, k: SortKey): seq<T> {
    if s == [] then []
    else WithKey(s[..|s| - 1], key, k) + (if key(s[|s| - 1]) == k then [s[|s| - 1]] else [])
  }

  /** A stable sort keeps, for every key, the elements with that key in their old order. */
  ghost predicate Stable<T>(s: seq<T>, t: seq<T>, key: T -> SortKey) {
    forall k :: WithKey(t, key, k) == WithKey(s, key, k)
  }

  // ---------------------------------------------------------------- reference sort

  /** Where x goes in s: after the last element whose key is not above x's key. */
  function Position<T>(s: seq<T>, x: T, key: T -> SortKey): (p: nat)
    ensures p <= |s|
    ensures forall m :: p <= m < |s| ==> !KeyLe(key(s[m]), key(x))
    ensures p > 0 ==> KeyLe(key(s[p - 1]), key(x))
  {
    if s == [] || KeyLe(key(s[|s| - 1]), key(x)) then |s|
    else Position(s[..|s| - 1], x, key)
  }

  function Insert<T>(s: seq<T>, x: T, key: T -> SortKey): seq<T> {
    var p := Position(s, x, key);
    s[..p] + [x] + s[p..]
  }

  /** Insertion sort. */
  function Sort<T>(s: seq<T>, key: T -> SortKey): seq<T> {
    if s == [] then []
    else Insert(Sort(s[..|s| - 1], key), s[|s| - 1], key)
  }

  // ---------------------------------------------------------------- properties

  lemma KeyLeTotal(a: SortKey, b: SortKey, c: SortKey)
    ensures KeyLe(a, a)
    ensures KeyLe(a, b) || KeyLe(b, a)
    ensures KeyLe(a, b) && KeyLe(b, a) ==> a == b
    ensures KeyLe(a, b) && KeyLe(b, c) ==> KeyLe(a, c)
  {
  }

  lemma {:induction false} WithKeyAppend<T>(a: seq<T>, b: seq<T>, key: T -> SortKey, k: SortKey)
    ensures WithKey(a + b, key, k) == WithKey(a, key, k) + WithKey(b, key, k)
  {
    if b == [] {
      assert a + b == a;
    } else {
      assert (a + b)[..|a + b| - 1] == a + b[..|b| - 1];
      WithKeyAppend(a, b[..|b| - 1], key, k);
    }
  }

  lemma InsertMultiset<T>(s: seq<T>, x: T, key: T -> SortKey)
    ensures multiset(Insert(s, x, key)) == multiset(s) + multiset{x}
  {
    var p := Position(s, x, key);
    assert s == s[..p] + s[p..];
  }

  lemma InsertSorted<T>(s: seq<T>, x: T, key: T -> SortKey)
    requires Sorted(s, key)
    ensures Sorted(Insert(s, x, key), key)
  {
  }

  lemma InsertWithKey<T>(s: seq<T>, x: T, key: T -> SortKey, k: SortKey)
    ensures WithKey(Insert(s, x, key), key, k)
            == WithKey(s, key, k) + (if key(x) == k then [x] else [])
  {
    var p := Position(s, x, key);
    var front, back := s[..p], s[p..];
    var mid := if key(x) == k then [x] else [];
    WithKeyAppend(front + [x], back, key, k);
    WithKeyAppend(front, [x], key, k);
    WithKeyAppend(front, back, key, k);
    WithKeySingle(x, key, k);
    if key(x) == k {
      WithKeyAbsent(back, key, k);
    }
    Associate3(WithKey(front, key, k), mid, WithKey(back, key, k), key(x) == k);
    assert s == front + back;
  }

  lemma WithKeySingle<T>(x: T, key: T -> SortKey, k: SortKey)
    ensures WithKey([x], key, k) == if key(x) == k then [x] else []
  {
  }

  lemma Associate3<T>(a: seq<T>, m: seq<T>, b: seq<T>, empty: bool)
    requires empty ==> b == []
    requires !empty ==> m == []
    ensures a + m + b == a + b + m
  {
  }

  lemma {:induction false} WithKeyAbsent<T>(s: seq<T>, key: T -> SortKey, k: SortKey)
    requires forall m :: 0 <= m < |s| ==> !KeyLe(key(s[m]), k)
    ensures WithKey(s, key, k) == []
  {
    if s != [] {
      WithKeyAbsent(s[..|s| - 1], key, k);
    }
  }

  /** Sort gives a permutation of its input. */
  lemma {:induction false} SortPermutation<T>(s: seq<T>, key: T -> SortKey)
    ensures multiset(Sort(s, key)) == multiset(s)
  {
    if s != [] {
      SortPermutation(s[..|s| - 1], key);
      InsertMultiset(Sort(s[..|s| - 1], key), s[|s| - 1], key);
      assert s == s[..|s| - 1] + [s[|s| - 1]];
    }
  }

  /** Sort gives a sequence sorted by key. */
  lemma {:induction false} SortSorted<T>(s: seq<T>, key: T -> SortKey)
    ensures Sorted(Sort(s, key), key)
  {
    if s != [] {
      SortSorted(s[..|s| - 1], key);
      InsertSorted(Sort(s[..|s| - 1], key), s[|s| - 1], key);
    }
  }

  /** Sort is stable: elements with equal keys keep their order. */
  lemma {:induction false} SortStable<T>(s: seq<T>, key: T -> SortKey)
    ensures Stable(s, Sort(s, key), key)
  {
    if s != [] {
      SortStable(s[..|s| - 1], key);
      forall k ensures WithKey(Sort(s, key), key, k) == WithKey(s, key, k) {
        InsertWithKey(Sort(s[..|s| - 1], key), s[|s| - 1], key, k);
      }
    }
  }

  /**
   * A sorted sequence is determined by its elements of each key: two sorted
   * sequences with the same elements per key, in the same order, are equal.
   */
  lemma {:induction false} SortedUnique<T>(u: seq<T>, v: seq<T>, key: T -> SortKey)
    requires Sorted(u, key) && Sorted(v, key)
    requires forall k :: WithKey(u, key, k) == WithKey(v, key, k)
    ensures u == v
    decreases |u| + |v|
  {
    if u == [] {
      NoKeysEmpty(v, key);
    } else if v == [] {
      NoKeysEmpty(u, key);
    } else {
      var x, y := u[|u| - 1], v[|v| - 1];
      var u', v' := u[..|u| - 1], v[..|v| - 1];
      LastKeysAgree(u, v, key);
      var k := key(x);
      assert WithKey(u, key, k) == WithKey(u', key, k) + [x];
      assert WithKey(v, key, k) == WithKey(v', key, k) + [y];
      forall k' ensures WithKey(u', key, k') == WithKey(v', key, k') {
        if k' == k {
          SnocInjective(WithKey(u', key, k), x, WithKey(v', key, k), y);
        } else {
          assert WithKey(u, key, k') == WithKey(u', key, k');
          assert WithKey(v, key, k') == WithKey(v', key, k');
        }
      }
      SnocInjective(WithKey(u', key, k), x, WithKey(v', key, k), y);
      SortedUnique(u', v', key);
      assert u == u' + [x] && v == v' + [y];
    }
  }

  /** A sequence without elements of any key is empty. */
  lemma NoKeysEmpty<T>(s: seq<T>, key: T -> SortKey)
    requires forall k :: WithKey(s, key, k) == []
    ensures s == []
  {
    if s != [] {
      LastHasOwnKey(s, key);
      assert false;
    }
  }

  lemma LastHasOwnKey<T>(s: seq<T>, key: T -> SortKey)
    requires s != []
    ensures WithKey(s, key, key(s[|s| - 1])) != []
  {
  }

  lemma SnocInjective<T>(a: seq<T>, x: T, b: seq<T>, y: T)
    requires a + [x] == b + [y]
    ensures a == b && x == y
  {
    assert a == (a + [x])[..|a|];
    assert b == (b + [y])[..|b|];
  }

  lemma LastKeysAgree<T>(u: seq<T>, v: seq<T>, key: T -> SortKey)
    requires u != [] && v != [] && Sorted(u, key) && Sorted(v, key)
    requires forall k :: WithKey(u, key, k) == WithKey(v, key, k)
    ensures key(u[|u| - 1]) == key(v[|v| - 1])
  {
    var x, y := u[|u| - 1], v[|v| - 1];
    HasKey(v, key, key(x));
    HasKey(u, key, key(y));
    KeyLeTotal(key(x), key(y), key(x));
  }

  /** When some element has key k, the last element's key is at least k. */
  lemma HasKey<T>(s: seq<T>, key: T -> SortKey, k: SortKey)
    requires s != [] && Sorted(s, key) && WithKey(s, key, k) != []
    ensures KeyLe(k, key(s[|s| - 1]))
  {
  }

  lemma {:induction false} WithKeyMember<T>(s: seq<T>, key: T -> SortKey, k: SortKey) returns (m: nat)
    requires WithKey(s, key, k) != []
    ensures m < |s| && key(s[m]) == k
  {
    if key(s[|s| - 1]) == k {
      m := |s| - 1;
    } else {
      m := WithKeyMember(s[..|s| - 1], key, k);
    }
  }

  /**
   * Any sorted, stable rearrangement of s is Sort(s): every stable sort by the
   * same key gives the same result.
   */
  lemma SortUnique<T>(s: seq<T>, t: seq<T>, key: T -> SortKey)
    requires Sorted(t, key) && Stable(s, t, key)
    ensures t == Sort(s, key)
  {
    SortSorted(s, key);
    SortStable(s, key);
    SortedUnique(t, Sort(s, key), key);
  }

  // ---------------------------------------------------------------- in place

  /** Arrays.sort on an object array: a stable sort by key, in place. */
  method SortInPlace<T>(a: array<T>, key: T -> SortKey)
    modifies a
    ensures a[..] == Sort(old(a[..]), key)
  {
    ghost var A := a[..];
    for i := 0 to a.Length
      invariant a[..i] == Sort(A[..i], key)
      invariant a[i..] == A[i..]
    {
      ghost var before := a[..];
      InsertInPlace(a, i, key);
      assert before[i] == A[i] by { assert before[i..][0] == A[i..][0]; }
      DropOne(before, A, i);
      assert A[..i + 1][..i] == A[..i];
    }
    assert A[..a.Length] == A;
  }

  lemma DropOne<T>(s: seq<T>, t: seq<T>, i: nat)
    requires i < |s| && |s| == |t| && s[i..] == t[i..]
    ensures s[i + 1..] == t[i + 1..]
  {
  }

  /** Moves a[i] left into the sorted prefix a[..i], behind every element whose key is not above its own. */
  method InsertInPlace<T>(a: array<T>, i: nat, key: T -> SortKey)
    requires i < a.Length
    modifies a
    ensures a[..i + 1] == Insert(old(a[..i]), old(a[i]), key)
    ensures a[i + 1..] == old(a[i + 1..])
  {
    ghost var P := a[..i];
    var x := a[i];
    var j := i;
    while j > 0 && !KeyLe(key(a[j - 1]), key(x))
      invariant 0 <= j <= i
      invariant a[..j] == P[..j]
      invariant a[j + 1..i + 1] == P[j..i]
      invariant forall m :: j <= m < i ==> !KeyLe(key(P[m]), key(x))
      invariant a[i + 1..] == old(a[i + 1..])
    {
      a[j] := a[j - 1];
      j := j - 1;
    }
    a[j] := x;
    PositionAt(P, x, key, j);
    assert a[..i + 1] == P[..j] + [x] + P[j..];
  }

  lemma {:induction false} PositionAt<T>(s: seq<T>, x: T, key: T -> SortKey, j: nat)
    requires j <= |s|
    requires forall m :: j <= m < |s| ==> !KeyLe(key(s[m]), key(x))
    requires j > 0 ==> KeyLe(key(s[j - 1]), key(x))
    ensures Position(s, x, key) == j
  {
  }
}
