/** One token's price array in internal/indexer/prices.go: binary search, sorted upsert, nearest
    neighbours and the piecewise-linear estimate. Time stamps are int nanoseconds, prices are reals. */
module PriceArrays {
  import opened BlockClock

  datatype TokenPrice = TokenPrice(lastUpdated: int, value: real, name: string, base: string)

  /** `compareFunction`: negative, zero or positive as `a` is before, at or after `b`. */
  function Compare(a: TokenPrice, b: TokenPrice): int {
    if a.lastUpdated < b.lastUpdated then -1 else if a.lastUpdated > b.lastUpdated then 1 else 0
  }

  predicate StrictlySorted(arr: seq<TokenPrice>) {
    forall i, j :: 0 <= i < j < |arr| ==> arr[i].lastUpdated < arr[j].lastUpdated
  }

  /** Position of the first entry at or after `t`. */
  function LowerBound(arr: seq<TokenPrice>, t: int): (i: nat)
    ensures i <= |arr|
    ensures forall k :: 0 <= k < i ==> arr[k].lastUpdated < t
    ensures i < |arr| ==> arr[i].lastUpdated >= t
  {
    if arr == [] || arr[0].lastUpdated >= t then 0 else LowerBound(arr[1..], t) + 1
  }

  /** On a sorted array the two facts of LowerBound's contract pin the position down. */
  lemma LowerBoundIsUnique(arr: seq<TokenPrice>, t: int, i: nat)
    requires StrictlySorted(arr) && i <= |arr|
    requires i > 0 ==> arr[i - 1].lastUpdated < t
    requires i < |arr| ==> arr[i].lastUpdated >= t
    ensures i == LowerBound(arr, t)
  {
  }

  /** `slices.BinarySearchFunc` over a price array. */
  method BinarySearch(arr: seq<TokenPrice>, target: TokenPrice) returns (index: nat, found: bool)
    requires StrictlySorted(arr)
    ensures index == LowerBound(arr, target.lastUpdated)
    ensures found <==> exists k :: 0 <= k < |arr| && arr[k].lastUpdated == target.lastUpdated
    ensures found <==> index < |arr| && arr[index].lastUpdated == target.lastUpdated
  {
    var n := |arr|;
    var i, j := 0, n;
    while i < j
      invariant 0 <= i <= j <= n
      invariant i > 0 ==> arr[i - 1].lastUpdated < target.lastUpdated
      invariant j < n ==> arr[j].lastUpdated >= target.lastUpdated
    {
      var h := (i + j) / 2;
      if Compare(arr[h], target) < 0 {
        i := h + 1;
      } else {
        j := h;
      }
    }
    LowerBoundIsUnique(arr, target.lastUpdated, i);
    index, found := i, i < n && Compare(arr[i], target) == 0;
    assert forall k :: 0 <= k < n && arr[k].lastUpdated == target.lastUpdated ==> k == i;
  }

  // ----- Upsert against a plain map -----

  /** The array after setting `p`: overwrite the entry with the same time stamp, or insert. */
  function Upsert(arr: seq<TokenPrice>, p: TokenPrice): seq<TokenPrice> {
    var i := LowerBound(arr, p.lastUpdated);
    if i < |arr| && arr[i].lastUpdated == p.lastUpdated then arr[i := p] else arr[..i] + [p] + arr[i..]
  }

  /** The plain map from time stamps that an array stands for. */
  function View(arr: seq<TokenPrice>): map<int, TokenPrice> {
    if arr == [] then map[]
    else View(arr[..|arr| - 1])[arr[|arr| - 1].lastUpdated := arr[|arr| - 1]]
  }

  /** A sorted array holds exactly the entries of its map. */
  lemma {:induction false} ViewMembers(arr: seq<TokenPrice>)
    requires StrictlySorted(arr)
    ensures forall p :: p in arr <==> p.lastUpdated in View(arr) && View(arr)[p.lastUpdated] == p
    ensures forall t :: t in View(arr) ==> View(arr)[t].lastUpdated == t
  {
    if arr != [] {
      var n := |arr| - 1;
      ViewMembers(arr[..n]);
      assert arr == arr[..n] + [arr[n]];
      assert forall p :: p in arr[..n] ==> p.lastUpdated < arr[n].lastUpdated;
    }
  }

  lemma UpsertIsSorted(arr: seq<TokenPrice>, p: TokenPrice)
    requires StrictlySorted(arr)
    ensures StrictlySorted(Upsert(arr, p))
  {
  }

  lemma UpsertMembers(arr: seq<TokenPrice>, p: TokenPrice, q: TokenPrice)
    requires StrictlySorted(arr)
    ensures q in Upsert(arr, p) <==> q == p || (q in arr && q.lastUpdated != p.lastUpdated)
  {
    var i := LowerBound(arr, p.lastUpdated);
    if i < |arr| && arr[i].lastUpdated == p.lastUpdated {
      assert arr == arr[..i] + [arr[i]] + arr[i + 1..];
      assert Upsert(arr, p) == arr[..i] + [p] + arr[i + 1..];
      Around(arr[..i], [arr[i]], arr[i + 1..], p, q);
    } else {
      assert arr == arr[..i] + [] + arr[i..];
      Around(arr[..i], [], arr[i..], p, q);
    }
  }

  lemma Around(lo: seq<TokenPrice>, mid: seq<TokenPrice>, hi: seq<TokenPrice>, p: TokenPrice, q: TokenPrice)
    requires forall k :: 0 <= k < |lo| ==> lo[k].lastUpdated < p.lastUpdated
    requires forall k :: 0 <= k < |mid| ==> mid[k].lastUpdated == p.lastUpdated
    requires forall k :: 0 <= k < |hi| ==> hi[k].lastUpdated > p.lastUpdated
    ensures q in lo + [p] + hi <==> q == p || (q in lo + mid + hi && q.lastUpdated != p.lastUpdated)
  {
  }

  predicate Holds(v: map<int, TokenPrice>, t: int, q: TokenPrice) {
    t in v && v[t] == q
  }

  lemma ViewAt(arr: seq<TokenPrice>, t: int, q: TokenPrice)
    requires StrictlySorted(arr)
    ensures Holds(View(arr), t, q) <==> q in arr && q.lastUpdated == t
  {
    ViewMembers(arr);
  }

  lemma SameMap(v: map<int, TokenPrice>, w: map<int, TokenPrice>)
    requires forall t, q :: Holds(v, t, q) <==> Holds(w, t, q)
    ensures v == w
  {
    assert forall t :: t in v ==> Holds(v, t, v[t]) && Holds(w, t, v[t]);
    assert forall t :: t in w ==> Holds(w, t, w[t]) && Holds(v, t, w[t]);
  }

  /** Setting a price keeps the array strictly sorted and is a map update: the last write wins. */
  lemma UpsertIsMapUpdate(arr: seq<TokenPrice>, p: TokenPrice)
    requires StrictlySorted(arr)
    ensures StrictlySorted(Upsert(arr, p))
    ensures View(Upsert(arr, p)) == View(arr)[p.lastUpdated := p]
  {
    UpsertIsSorted(arr, p);
    var v, w := View(Upsert(arr, p)), View(arr)[p.lastUpdated := p];
    forall t, q ensures Holds(v, t, q) <==> Holds(w, t, q) {
      ViewAt(Upsert(arr, p), t, q);
      UpsertMembers(arr, p, q);
      ViewAt(arr, t, q);
    }
    SameMap(v, w);
  }

  /** A sorted array is determined by the map it stands for. */
  lemma ViewIsCanonical(a: seq<TokenPrice>, b: seq<TokenPrice>)
    requires StrictlySorted(a) && StrictlySorted(b) && View(a) == View(b)
    ensures a == b
  {
    ViewMembers(a);
    ViewMembers(b);
    MembersAreCanonical(a, b);
  }

  lemma {:induction false} MembersAreCanonical(a: seq<TokenPrice>, b: seq<TokenPrice>)
    requires StrictlySorted(a) && StrictlySorted(b)
    requires forall p :: p in a <==> p in b
    ensures a == b
  {
    assert a != [] ==> a[0] in a;
    assert b != [] ==> b[0] in b;
    if a != [] {
      assert a[0] in b && b[0] in a;
      assert a[0] == b[0];
      forall p ensures p in a[1..] <==> p in b[1..] {
        assert p in a[1..] <==> p in a && p != a[0];
        assert p in b[1..] <==> p in b && p != b[0];
      }
      MembersAreCanonical(a[1..], b[1..]);
    }
  }

  // ----- Nearest neighbours -----

  /** What Nearest returns for one token's array. */
  function NearestOf(arr: seq<TokenPrice>, t: int): seq<TokenPrice> {
    var i := LowerBound(arr, t);
    if arr == [] then []
    else if i == 0 || (i < |arr| && arr[i].lastUpdated == t) then [arr[i]]
    else if i >= |arr| then [arr[|arr| - 1]]
    else [arr[i - 1], arr[i]]
  }

  /** The linear specification: the exact entry; or the immediate neighbours on both sides; or the
      closest entry when `t` lies outside the stored range. */
  ghost predicate IsNearest(arr: seq<TokenPrice>, t: int, r: seq<TokenPrice>) {
    && (forall p :: p in r ==> p in arr)
    && if arr == [] then r == []
       else if exists p :: p in arr && p.lastUpdated == t then |r| == 1 && r[0].lastUpdated == t
       else if forall p :: p in arr ==> t < p.lastUpdated then
         |r| == 1 && forall p :: p in arr ==> r[0].lastUpdated <= p.lastUpdated
       else if forall p :: p in arr ==> p.lastUpdated < t then
         |r| == 1 && forall p :: p in arr ==> p.lastUpdated <= r[0].lastUpdated
       else
         && |r| == 2 && r[0].lastUpdated < t < r[1].lastUpdated
         && forall p :: p in arr ==> p.lastUpdated <= r[0].lastUpdated || r[1].lastUpdated <= p.lastUpdated
  }

  lemma StampBounds(arr: seq<TokenPrice>, t: int, p: TokenPrice)
    requires StrictlySorted(arr) && p in arr
    ensures var i := LowerBound(arr, t);
      && (i > 0 ==> p.lastUpdated <= arr[i - 1].lastUpdated || p.lastUpdated >= t)
      && (i < |arr| ==> p.lastUpdated < t || p.lastUpdated >= arr[i].lastUpdated)
      && (i == |arr| ==> p.lastUpdated < t)
      && (i == 0 ==> p.lastUpdated >= t)
  {
    var k :| 0 <= k < |arr| && arr[k] == p;
  }

  lemma NearestOutside(arr: seq<TokenPrice>, t: int)
    requires StrictlySorted(arr) && arr != [] && forall p :: p in arr ==> p.lastUpdated != t
    requires LowerBound(arr, t) == 0 || LowerBound(arr, t) == |arr|
    ensures IsNearest(arr, t, NearestOf(arr, t))
  {
    var n := |arr|;
    assert arr[0] in arr && arr[n - 1] in arr;
    forall p | p in arr
      ensures if LowerBound(arr, t) == 0 then t < p.lastUpdated && arr[0].lastUpdated <= p.lastUpdated
              else p.lastUpdated < t && p.lastUpdated <= arr[n - 1].lastUpdated
    {
      StampBounds(arr, t, p);
    }
  }

  lemma NearestBetween(arr: seq<TokenPrice>, t: int)
    requires StrictlySorted(arr) && forall p :: p in arr ==> p.lastUpdated != t
    requires 0 < LowerBound(arr, t) < |arr|
    ensures IsNearest(arr, t, NearestOf(arr, t))
  {
    var i := LowerBound(arr, t);
    assert arr[i - 1] in arr && arr[i] in arr;
    forall p | p in arr ensures p.lastUpdated <= arr[i - 1].lastUpdated || arr[i].lastUpdated <= p.lastUpdated {
      StampBounds(arr, t, p);
    }
  }

  lemma NearestMeetsSpec(arr: seq<TokenPrice>, t: int)
    requires StrictlySorted(arr)
    ensures IsNearest(arr, t, NearestOf(arr, t))
  {
    var n, i := |arr|, LowerBound(arr, t);
    if i < n && arr[i].lastUpdated == t {
      assert arr[i] in arr;
    } else if 0 < n {
      forall p | p in arr ensures p.lastUpdated != t {
        StampBounds(arr, t, p);
      }
      if 0 < i < n {
        NearestBetween(arr, t);
      } else {
        NearestOutside(arr, t);
      }
    }
  }

  /** The linear specification leaves one answer. */
  lemma NearestIsUnique(arr: seq<TokenPrice>, t: int, r: seq<TokenPrice>)
    requires StrictlySorted(arr) && IsNearest(arr, t, r)
    ensures r == NearestOf(arr, t)
  {
    NearestMeetsSpec(arr, t);
    var s := NearestOf(arr, t);
    SameShape(arr, t, r, s);
    forall k | 0 <= k < |r| ensures r[k] == s[k] {
      assert r[k] in r && s[k] in s;
      SameStamp(arr, r[k], s[k]);
    }
  }

  lemma SameShape(arr: seq<TokenPrice>, t: int, r: seq<TokenPrice>, s: seq<TokenPrice>)
    requires IsNearest(arr, t, r) && IsNearest(arr, t, s)
    ensures |r| == |s| && forall k :: 0 <= k < |r| ==> r[k].lastUpdated == s[k].lastUpdated
  {
    if arr != [] {
      assert r[0] in r && s[0] in s;
      if (forall p :: p in arr ==> p.lastUpdated != t) && |r| == 2 {
        assert r[1] in r && r[0] in arr && r[1] in arr && |s| == 2;
        assert s[1] in s && s[0] in arr && s[1] in arr;
      }
    }
  }

  lemma SameStamp(arr: seq<TokenPrice>, p: TokenPrice, q: TokenPrice)
    requires StrictlySorted(arr) && p in arr && q in arr
    ensures p == q <==> p.lastUpdated == q.lastUpdated
  {
  }

  lemma {:induction false} LowerBoundOfSuffix(arr: seq<TokenPrice>, c: nat, t: int)
    requires StrictlySorted(arr) && c <= LowerBound(arr, t)
    ensures LowerBound(arr[c..], t) == LowerBound(arr, t) - c
  {
    if c > 0 {
      LowerBoundOfSuffix(arr[1..], c - 1, t);
      assert arr[1..][c - 1..] == arr[c..];
    } else {
      assert arr[0..] == arr;
    }
  }

  lemma KeptLookup(arr: seq<TokenPrice>, c: nat, t: int)
    requires StrictlySorted(arr) && c < |arr| && arr[c].lastUpdated <= t
    ensures NearestOf(arr[c..], t) == NearestOf(arr, t)
  {
    assert c <= LowerBound(arr, t);
    LowerBoundOfSuffix(arr, c, t);
    KeptAt(arr, arr[c..], c, LowerBound(arr, t), t);
  }

  /** The lookup's own case distinction, at the same entry of both arrays. */
  lemma KeptAt(arr: seq<TokenPrice>, kept: seq<TokenPrice>, c: nat, i: nat, t: int)
    requires c < |arr| && kept == arr[c..] && arr[c].lastUpdated <= t
    requires i == LowerBound(arr, t) && c <= i && LowerBound(kept, t) == i - c
    ensures NearestOf(kept, t) == NearestOf(arr, t)
  {
    if i == |arr| {
      assert kept[|kept| - 1] == arr[i - 1];
    } else {
      assert kept[i - c] == arr[i];
      if c < i {
        assert kept[i - c - 1] == arr[i - 1];
      }
    }
  }

  lemma LostLookup(arr: seq<TokenPrice>, c: nat, t: int)
    requires StrictlySorted(arr) && 0 < c < |arr| && t < arr[c].lastUpdated
    ensures NearestOf(arr[c..], t) == [arr[c]]
    ensures NearestOf(arr, t) != [arr[c]]
  {
    LowerBoundIsUnique(arr[c..], t, 0);
    var i := LowerBound(arr, t);
    assert i <= c;
    if i < c {
      assert arr[i].lastUpdated < arr[c].lastUpdated;
    }
  }

  /** Dropping a time prefix leaves a lookup unchanged for exactly the times at or after the first
      kept entry. */
  lemma SuffixLookup(arr: seq<TokenPrice>, c: nat, t: int)
    requires StrictlySorted(arr) && c < |arr|
    ensures NearestOf(arr[c..], t) == NearestOf(arr, t) <==> c == 0 || arr[c].lastUpdated <= t
  {
    if c == 0 {
      assert arr[c..] == arr;
    } else if arr[c].lastUpdated <= t {
      KeptLookup(arr, c, t);
    } else {
      LostLookup(arr, c, t);
    }
  }

  // ----- Estimate -----

  datatype Estimation = Estimation(price: real, error: int)

  function Seconds(d: int): real { d as real / SECOND as real }

  /** The price at `t` on the line through two stored prices, both durations in seconds. */
  function Interpolate(p: TokenPrice, q: TokenPrice, t: int): real
    requires p.lastUpdated != q.lastUpdated
  {
    var deltaP := q.value - p.value;
    p.value + Seconds(t - p.lastUpdated) * deltaP / Seconds(q.lastUpdated - p.lastUpdated)
  }

  /** The estimate from the neighbours of `t`. */
  function EstimateFrom(ps: seq<TokenPrice>, t: int): Estimation {
    if |ps| == 0 then Estimation(0.0, 48 * HOUR)
    else if |ps| == 1 then Estimation(ps[0].value, t - ps[0].lastUpdated)
    else
      var deltaT := ps[1].lastUpdated - ps[0].lastUpdated;
      if deltaT == 0 then Estimation(ps[0].value, deltaT)
      else Estimation(Interpolate(ps[0], ps[1], t), deltaT)
  }

  /** What Estimate returns for one token's array. */
  function EstimateOf(arr: seq<TokenPrice>, t: int): Estimation {
    EstimateFrom(NearestOf(arr, t), t)
  }
}
