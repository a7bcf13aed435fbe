/** `slices.SortFunc`, as far as the indexer relies on it: the result is ordered and holds the same
    elements. The library sort is not stable, so callers may use nothing about ties. */
module Sorting {

  predicate Ordered<T>(s: seq<T>, key: T -> int) {
    forall i, j :: 0 <= i < j < |s| ==> key(s[i]) <= key(s[j])
  }

  /** A comparison function agrees, on the elements of `s`, with the order of the keys. */
  predicate Agrees<T(==)>(s: seq<T>, cmp: (T, T) -> int, key: T -> int) {
    forall a, b :: a in s && b in s ==>
      (cmp(a, b) < 0 <==> key(a) < key(b)) && (cmp(a, b) > 0 <==> key(a) > key(b))
  }

  ghost predicate SortOf<T>(s: seq<T>, r: seq<T>, key: T -> int) {
    multiset(r) == multiset(s) && Ordered(r, key)
  }

  /** Insertion sort driven by the comparison function, the library's own choice for short slices. */
  method SortFunc<T(==)>(s: seq<T>, cmp: (T, T) -> int, ghost key: T -> int) returns (r: seq<T>)
    requires Agrees(s, cmp, key)
    ensures SortOf(s, r, key)
  {
    r := [];
    for i := 0 to |s|
      invariant SortOf(s[..i], r, key)
    {
      AgreesOnSorted(s, i, r, cmp, key);
      var j := Slot(r, s[i], cmp, key);
      InsertAt(s[..i], r, j, s[i], key);
      assert s[..i + 1] == s[..i] + [s[i]];
      r := r[..j] + [s[i]] + r[j..];
    }
    assert s[..|s|] == s;
  }

  /** Walks down from the end to where `x` belongs. */
  method Slot<T>(r: seq<T>, x: T, cmp: (T, T) -> int, ghost key: T -> int) returns (j: nat)
    requires forall k :: 0 <= k < |r| ==> (cmp(x, r[k]) < 0 <==> key(x) < key(r[k]))
    ensures j <= |r| && (j > 0 ==> key(r[j - 1]) <= key(x))
    ensures forall k :: j <= k < |r| ==> key(x) < key(r[k])
  {
    j := |r|;
    while j > 0 && cmp(x, r[j - 1]) < 0
      invariant 0 <= j <= |r|
      invariant forall k :: j <= k < |r| ==> key(x) < key(r[k])
    {
      j := j - 1;
    }
  }

  lemma AgreesOnSorted<T>(s: seq<T>, i: nat, r: seq<T>, cmp: (T, T) -> int, key: T -> int)
    requires Agrees(s, cmp, key) && i < |s| && multiset(r) == multiset(s[..i])
    ensures forall k :: 0 <= k < |r| ==> (cmp(s[i], r[k]) < 0 <==> key(s[i]) < key(r[k]))
  {
    forall k | 0 <= k < |r| ensures r[k] in s {
      SameElements(s[..i], r, r[k]);
    }
  }

  lemma SameElements<T>(s: seq<T>, r: seq<T>, x: T)
    requires multiset(r) == multiset(s)
    ensures x in r <==> x in s
  {
    assert x in r <==> x in multiset(r);
    assert x in s <==> x in multiset(s);
  }

  lemma InsertAt<T>(s: seq<T>, r: seq<T>, j: nat, x: T, key: T -> int)
    requires SortOf(s, r, key) && j <= |r|
    requires forall k :: j <= k < |r| ==> key(x) <= key(r[k])
    requires j > 0 ==> key(r[j - 1]) <= key(x)
    ensures SortOf(s + [x], r[..j] + [x] + r[j..], key)
  {
    InsertedElements(r, j, x);
    assert multiset(s + [x]) == multiset(s) + multiset{x};
    assert forall k :: 0 <= k < j ==> key(r[k]) <= key(x);
    InsertIsOrdered(r, j, x, key);
  }

  lemma InsertedElements<T>(r: seq<T>, j: nat, x: T)
    requires j <= |r|
    ensures multiset(r[..j] + [x] + r[j..]) == multiset(r) + multiset{x}
  {
    var lo, hi := r[..j], r[j..];
    assert r == lo + hi;
    assert multiset(lo + [x] + hi) == multiset(lo + [x]) + multiset(hi);
  }

  lemma InsertIsOrdered<T>(r: seq<T>, j: nat, x: T, key: T -> int)
    requires Ordered(r, key) && j <= |r|
    requires forall k :: 0 <= k < j ==> key(r[k]) <= key(x)
    requires forall k :: j <= k < |r| ==> key(x) <= key(r[k])
    ensures Ordered(r[..j] + [x] + r[j..], key)
  {
    var out := r[..j] + [x] + r[j..];
    forall i, k | 0 <= i < k < |out| ensures key(out[i]) <= key(out[k]) {
      assert i < j ==> out[i] == r[i];
      assert i > j ==> out[i] == r[i - 1];
      assert k < j ==> out[k] == r[k];
      assert k > j ==> out[k] == r[k - 1];
    }
  }

  predicate StrictlyOrdered<T>(s: seq<T>, key: T -> int) {
    forall i, j :: 0 <= i < j < |s| ==> key(s[i]) < key(s[j])
  }

  lemma SameHead<T>(a: seq<T>, b: seq<T>, key: T -> int)
    requires multiset(a) == multiset(b) && Ordered(b, key) && StrictlyOrdered(a, key)
    requires a != [] && b != []
    ensures a[0] == b[0]
  {
    SameElements(b, a, a[0]);
    SameElements(b, a, b[0]);
    var i :| 0 <= i < |a| && a[i] == b[0];
    var j :| 0 <= j < |b| && b[j] == a[0];
    assert key(b[0]) <= key(b[j]);
    assert i == 0;
  }

  lemma TailElements<T>(s: seq<T>)
    requires s != []
    ensures multiset(s[1..]) == multiset(s) - multiset{s[0]}
  {
    assert s == [s[0]] + s[1..];
  }

  /** If the keys are pairwise distinct the sorted order is unique, so an unstable sort is harmless. */
  lemma {:induction false} SortIsUnique<T>(a: seq<T>, b: seq<T>, key: T -> int)
    requires multiset(a) == multiset(b) && Ordered(b, key) && StrictlyOrdered(a, key)
    ensures a == b
  {
    assert |multiset(a)| == |a| && |multiset(b)| == |b|;
    if a != [] {
      SameHead(a, b, key);
      TailElements(a);
      TailElements(b);
      SortIsUnique(a[1..], b[1..], key);
      SameParts(a, b);
    }
  }

  lemma SameParts<T>(a: seq<T>, b: seq<T>)
    requires a != [] && b != [] && a[0] == b[0] && a[1..] == b[1..]
    ensures a == b
  {
    assert a == [a[0]] + a[1..] && b == [b[0]] + b[1..];
  }
}
