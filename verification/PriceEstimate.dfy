/** The global shape of the price estimate over one token's array, across all segments and both
    extrapolations (internal/indexer/prices.go, `Estimate`). */
module PriceEstimate {
  import opened PriceArrays
  import opened BlockClock

  function Price(arr: seq<TokenPrice>, t: int): real { EstimateOf(arr, t).price }

  /** The straight line through two stored prices. */
  function Line(p: TokenPrice, q: TokenPrice, t: int): real
    requires p.lastUpdated < q.lastUpdated
  {
    p.value + (t - p.lastUpdated) as real * (q.value - p.value) / (q.lastUpdated - p.lastUpdated) as real
  }

  lemma CancelFactor(x: real, y: real, w: real)
    requires w > 0.0
    ensures x * w <= y * w <==> x <= y
    ensures y * w / w == y
  {
    assert (y - x) * w == y * w - x * w;
  }

  lemma SecondsCancel(d: int, deltaP: real, deltaT: int)
    requires deltaT > 0
    ensures Seconds(deltaT) > 0.0
    ensures Seconds(d) * deltaP / Seconds(deltaT) == d as real * deltaP / deltaT as real
  {
    var x := Seconds(d) * deltaP / Seconds(deltaT);
    assert x * Seconds(deltaT) == Seconds(d) * deltaP;
    assert x * deltaT as real == d as real * deltaP;
  }

  lemma StrictlyInside(arr: seq<TokenPrice>, i: nat, t: int)
    requires StrictlySorted(arr) && i + 1 < |arr|
    requires arr[i].lastUpdated < t < arr[i + 1].lastUpdated
    ensures Price(arr, t) == Interpolate(arr[i], arr[i + 1], t)
  {
    LowerBoundIsUnique(arr, t, i + 1);
  }

  lemma InterpolateIsLine(p: TokenPrice, q: TokenPrice, t: int)
    requires p.lastUpdated < q.lastUpdated
    ensures Interpolate(p, q, t) == Line(p, q, t)
  {
    SecondsCancel(t - p.lastUpdated, q.value - p.value, q.lastUpdated - p.lastUpdated);
  }

  /** Every stored point is hit exactly, with no time error. */
  lemma HitsStoredPoints(arr: seq<TokenPrice>, i: nat)
    requires StrictlySorted(arr) && i < |arr|
    ensures EstimateOf(arr, arr[i].lastUpdated) == Estimation(arr[i].value, 0)
  {
    LowerBoundIsUnique(arr, arr[i].lastUpdated, i);
  }

  lemma LineEnds(p: TokenPrice, q: TokenPrice)
    requires p.lastUpdated < q.lastUpdated
    ensures Line(p, q, p.lastUpdated) == p.value && Line(p, q, q.lastUpdated) == q.value
  {
    CancelFactor(0.0, q.value - p.value, (q.lastUpdated - p.lastUpdated) as real);
  }

  /** Between two adjacent entries, end points included, the estimate is the line through them. */
  lemma OnSegment(arr: seq<TokenPrice>, i: nat, t: int)
    requires StrictlySorted(arr) && i + 1 < |arr|
    requires arr[i].lastUpdated <= t <= arr[i + 1].lastUpdated
    ensures Price(arr, t) == Line(arr[i], arr[i + 1], t)
  {
    HitsStoredPoints(arr, i);
    HitsStoredPoints(arr, i + 1);
    LineEnds(arr[i], arr[i + 1]);
    if arr[i].lastUpdated < t < arr[i + 1].lastUpdated {
      StrictlyInside(arr, i, t);
      InterpolateIsLine(arr[i], arr[i + 1], t);
    }
  }

  /** Outside the stored range the estimate is constant. */
  lemma OutsideRange(arr: seq<TokenPrice>, t: int)
    requires StrictlySorted(arr) && arr != []
    ensures t <= arr[0].lastUpdated ==> Price(arr, t) == arr[0].value
    ensures t >= arr[|arr| - 1].lastUpdated ==> Price(arr, t) == arr[|arr| - 1].value
  {
    var n := |arr| - 1;
    if t <= arr[0].lastUpdated {
      LowerBoundIsUnique(arr, t, 0);
    }
    if t == arr[n].lastUpdated {
      LowerBoundIsUnique(arr, t, n);
    } else if t > arr[n].lastUpdated {
      LowerBoundIsUnique(arr, t, n + 1);
    }
  }

  /** The estimate of one array as a function of time. */
  function Curve(arr: seq<TokenPrice>): int -> real { t => Price(arr, t) }

  /** What the two lemmas above say of the curve. The shape results need nothing else about it. */
  ghost predicate Interpolates(arr: seq<TokenPrice>, f: int -> real) {
    && StrictlySorted(arr)
    && (arr == [] ==> forall t :: f(t) == 0.0)
    && (forall t :: arr != [] && t <= arr[0].lastUpdated ==> f(t) == arr[0].value)
    && (forall t :: arr != [] && t >= arr[|arr| - 1].lastUpdated ==> f(t) == arr[|arr| - 1].value)
    && (forall i, t :: 0 <= i < |arr| - 1 && arr[i].lastUpdated <= t <= arr[i + 1].lastUpdated
          ==> f(t) == Line(arr[i], arr[i + 1], t))
  }

  lemma CurveInterpolates(arr: seq<TokenPrice>)
    requires StrictlySorted(arr)
    ensures Interpolates(arr, Curve(arr))
  {
    var f := Curve(arr);
    if arr != [] {
      forall t ensures t <= arr[0].lastUpdated ==> f(t) == arr[0].value
               ensures t >= arr[|arr| - 1].lastUpdated ==> f(t) == arr[|arr| - 1].value
      {
        OutsideRange(arr, t);
      }
    }
    forall i, t | 0 <= i < |arr| - 1 && arr[i].lastUpdated <= t <= arr[i + 1].lastUpdated
      ensures f(t) == Line(arr[i], arr[i + 1], t)
    {
      OnSegment(arr, i, t);
    }
  }

  lemma LineIsBetween(p: TokenPrice, q: TokenPrice, t: int, lo: real, hi: real)
    requires p.lastUpdated < q.lastUpdated && p.lastUpdated <= t <= q.lastUpdated
    requires lo <= p.value <= hi && lo <= q.value <= hi
    ensures lo <= Line(p, q, t) <= hi
  {
    var d, w := (t - p.lastUpdated) as real, (q.lastUpdated - p.lastUpdated) as real;
    var u := q.value - p.value;
    FractionIsBetween(d, u, w);
    var x := d * u / w;
    assert Line(p, q, t) == p.value + x;
  }

  lemma FractionIsBetween(d: real, u: real, w: real)
    requires 0.0 <= d <= w && w > 0.0
    ensures u >= 0.0 ==> 0.0 <= d * u / w <= u
    ensures u <= 0.0 ==> u <= d * u / w <= 0.0
  {
    var x := d * u / w;
    assert x * w == d * u;
    CancelFactor(x, u, w);
    CancelFactor(u, x, w);
    CancelFactor(x, 0.0, w);
    CancelFactor(0.0, x, w);
    if u >= 0.0 {
      assert 0.0 <= d * u <= u * w;
    } else {
      assert u * w <= d * u <= 0.0;
    }
  }

  /** The estimate never leaves the range of the stored values. */
  lemma StaysInRange(arr: seq<TokenPrice>, t: int, lo: real, hi: real)
    requires StrictlySorted(arr) && arr != []
    requires forall p :: p in arr ==> lo <= p.value <= hi
    ensures lo <= Price(arr, t) <= hi
  {
    var n, i := |arr| - 1, LowerBound(arr, t);
    assert arr[0] in arr && arr[n] in arr;
    OutsideRange(arr, t);
    if arr[0].lastUpdated < t < arr[n].lastUpdated {
      assert 0 < i <= n;
      OnSegment(arr, i - 1, t);
      LineIsBetween(arr[i - 1], arr[i], t, lo, hi);
    }
  }

  // ----- Slopes -----

  /** Over a time `d` the value goes from `x` to `y`; in direction `sign` it falls no faster than `a`. */
  predicate Climbs(x: real, y: real, d: int, sign: real, a: real) {
    sign * (y - x) >= a * d as real
  }

  predicate SlopesAtLeast(arr: seq<TokenPrice>, sign: real, a: real) {
    forall i :: 0 <= i < |arr| - 1 ==>
      Climbs(arr[i].value, arr[i + 1].value, arr[i + 1].lastUpdated - arr[i].lastUpdated, sign, a)
  }

  lemma LineSlope(p: TokenPrice, q: TokenPrice, s: int, t: int, sign: real, a: real)
    requires p.lastUpdated < q.lastUpdated && s <= t
    requires Climbs(p.value, q.value, q.lastUpdated - p.lastUpdated, sign, a)
    ensures Climbs(Line(p, q, s), Line(p, q, t), t - s, sign, a)
  {
    var w, u := (q.lastUpdated - p.lastUpdated) as real, q.value - p.value;
    var x, y := (t - p.lastUpdated) as real * u / w, (s - p.lastUpdated) as real * u / w;
    var d := (t - s) as real;
    assert x * w == (t - p.lastUpdated) as real * u && y * w == (s - p.lastUpdated) as real * u;
    assert (x - y) * w == d * u;
    var z := sign * (x - y);
    assert z * w == d * (sign * u);
    assert d * (sign * u) >= d * (a * w);
    assert z * w >= (a * d) * w;
    CancelFactor(a * d, z, w);
  }

  lemma Flat(x: real, d: nat, sign: real, a: real)
    requires a <= 0.0
    ensures Climbs(x, x, d, sign, a)
  {
  }

  lemma ClimbsAdd(x: real, y: real, z: real, d: int, e: int, sign: real, a: real)
    requires Climbs(x, y, d, sign, a) && Climbs(y, z, e, sign, a)
    ensures Climbs(x, z, d + e, sign, a)
  {
    assert sign * (z - x) == sign * (y - x) + sign * (z - y);
    assert a * (d + e) as real == a * d as real + a * e as real;
  }

  /** Two times with no entry strictly between them lie on one segment or on one extrapolation. */
  lemma SlopeWithinSegment(arr: seq<TokenPrice>, f: int -> real, s: int, t: int, sign: real, a: real)
    requires Interpolates(arr, f) && SlopesAtLeast(arr, sign, a) && a <= 0.0 && s <= t
    requires forall k :: 0 <= k < |arr| ==> arr[k].lastUpdated <= s || t <= arr[k].lastUpdated
    ensures Climbs(f(s), f(t), t - s, sign, a)
  {
    var i := LowerBound(arr, t);
    if s < t && 0 < i < |arr| {
      LineSlope(arr[i - 1], arr[i], s, t, sign, a);
    } else {
      assert f(s) == f(t);
      Flat(f(s), t - s, sign, a);
    }
  }

  /** A bound on all adjacent slopes is a bound on the estimate between any two times. */
  lemma {:induction false} SlopeBound(arr: seq<TokenPrice>, f: int -> real, s: int, t: int, sign: real, a: real)
    requires Interpolates(arr, f) && SlopesAtLeast(arr, sign, a) && a <= 0.0 && s <= t
    ensures Climbs(f(s), f(t), t - s, sign, a)
    decreases t - s
  {
    if k :| 0 <= k < |arr| && s < arr[k].lastUpdated < t {
      var m := arr[k].lastUpdated;
      SlopeBound(arr, f, s, m, sign, a);
      SlopeBound(arr, f, m, t, sign, a);
      ClimbsAdd(f(s), f(m), f(t), m - s, t - m, sign, a);
    } else {
      SlopeWithinSegment(arr, f, s, t, sign, a);
    }
  }

  /** The value changes by at most `l` per nanosecond over a time `d`. */
  predicate Within(x: real, y: real, d: int, l: real) {
    -(l * d as real) <= y - x <= l * d as real
  }

  lemma WithinIsTwoClimbs(x: real, y: real, d: int, l: real)
    ensures Within(x, y, d, l) <==> Climbs(x, y, d, 1.0, -l) && Climbs(x, y, d, -1.0, -l)
  {
    assert -l * d as real == -(l * d as real);
  }

  ghost predicate Lipschitz(f: int -> real, l: real) {
    forall s, t :: s <= t ==> Within(f(s), f(t), t - s, l)
  }

  predicate AdjacentWithin(arr: seq<TokenPrice>, l: real) {
    forall i :: 0 <= i < |arr| - 1 ==>
      Within(arr[i].value, arr[i + 1].value, arr[i + 1].lastUpdated - arr[i].lastUpdated, l)
  }

  lemma StoredOnCurve(arr: seq<TokenPrice>, i: nat)
    requires StrictlySorted(arr) && i < |arr|
    ensures Curve(arr)(arr[i].lastUpdated) == arr[i].value
  {
    HitsStoredPoints(arr, i);
  }

  lemma SlopesFromAdjacent(arr: seq<TokenPrice>, l: real)
    requires AdjacentWithin(arr, l)
    ensures SlopesAtLeast(arr, 1.0, -l) && SlopesAtLeast(arr, -1.0, -l)
  {
    forall i | 0 <= i < |arr| - 1
      ensures Climbs(arr[i].value, arr[i + 1].value, arr[i + 1].lastUpdated - arr[i].lastUpdated, 1.0, -l)
      ensures Climbs(arr[i].value, arr[i + 1].value, arr[i + 1].lastUpdated - arr[i].lastUpdated, -1.0, -l)
    {
      WithinIsTwoClimbs(arr[i].value, arr[i + 1].value, arr[i + 1].lastUpdated - arr[i].lastUpdated, l);
    }
  }

  lemma LipschitzFromAdjacent(arr: seq<TokenPrice>, f: int -> real, l: real)
    requires Interpolates(arr, f) && l >= 0.0 && AdjacentWithin(arr, l)
    ensures Lipschitz(f, l)
  {
    SlopesFromAdjacent(arr, l);
    forall s, t | s <= t ensures Within(f(s), f(t), t - s, l) {
      SlopeBound(arr, f, s, t, 1.0, -l);
      SlopeBound(arr, f, s, t, -1.0, -l);
      WithinIsTwoClimbs(f(s), f(t), t - s, l);
    }
  }

  /** The estimate is Lipschitz with constant `l` if and only if no adjacent slope exceeds `l`:
      the largest adjacent slope is the best constant. */
  lemma LipschitzIffAdjacent(arr: seq<TokenPrice>, l: real)
    requires StrictlySorted(arr) && l >= 0.0
    ensures Lipschitz(Curve(arr), l) <==> AdjacentWithin(arr, l)
  {
    if AdjacentWithin(arr, l) {
      CurveInterpolates(arr);
      LipschitzFromAdjacent(arr, Curve(arr), l);
    }
    if Lipschitz(Curve(arr), l) {
      forall i | 0 <= i < |arr| - 1
        ensures Within(arr[i].value, arr[i + 1].value, arr[i + 1].lastUpdated - arr[i].lastUpdated, l)
      {
        StoredOnCurve(arr, i);
        StoredOnCurve(arr, i + 1);
      }
    }
  }

  ghost predicate NonDecreasing(f: int -> real) {
    forall s, t :: s <= t ==> f(s) <= f(t)
  }

  predicate StoredNonDecreasing(arr: seq<TokenPrice>) {
    forall i :: 0 <= i < |arr| - 1 ==> arr[i].value <= arr[i + 1].value
  }

  lemma MonotoneFromStored(arr: seq<TokenPrice>, f: int -> real)
    requires Interpolates(arr, f) && StoredNonDecreasing(arr)
    ensures NonDecreasing(f)
  {
    assert SlopesAtLeast(arr, 1.0, 0.0);
    forall s, t | s <= t ensures f(s) <= f(t) {
      SlopeBound(arr, f, s, t, 1.0, 0.0);
    }
  }

  /** The estimate is non-decreasing in time if and only if the stored values are. */
  lemma MonotoneIffStored(arr: seq<TokenPrice>)
    requires StrictlySorted(arr)
    ensures NonDecreasing(Curve(arr)) <==> StoredNonDecreasing(arr)
  {
    if StoredNonDecreasing(arr) {
      CurveInterpolates(arr);
      MonotoneFromStored(arr, Curve(arr));
    }
    if NonDecreasing(Curve(arr)) {
      forall i | 0 <= i < |arr| - 1 ensures arr[i].value <= arr[i + 1].value {
        StoredOnCurve(arr, i);
        StoredOnCurve(arr, i + 1);
      }
    }
  }

  // ----- The time error and the two acceptance tests -----

  const DAY: int := 24 * HOUR

  /** The test of `fetchVolumeValuesPerBlockRange`: the signed error. */
  predicate AcceptedSigned(e: Estimation) { e.error <= DAY }

  /** The test of `calculateVolumeValueAt`: the absolute error. */
  predicate AcceptedAbsolute(e: Estimation) { (if e.error < 0 then -e.error else e.error) <= DAY }

  /** Without prices the estimate is 0, with an error of two days. */
  lemma ErrorWithoutPrices(t: int)
    ensures EstimateOf([], t) == Estimation(0.0, 48 * HOUR)
  {
  }

  /** Up to the first stored price and from the last one on the error is the signed distance to it: 0 at the
      price itself, negative before the first. */
  lemma ErrorOutside(arr: seq<TokenPrice>, t: int)
    requires StrictlySorted(arr) && arr != []
    ensures t <= arr[0].lastUpdated ==> EstimateOf(arr, t).error == t - arr[0].lastUpdated
    ensures t >= arr[|arr| - 1].lastUpdated ==> EstimateOf(arr, t).error == t - arr[|arr| - 1].lastUpdated
  {
    var n := |arr| - 1;
    if t <= arr[0].lastUpdated {
      LowerBoundIsUnique(arr, t, 0);
    }
    if t == arr[n].lastUpdated {
      LowerBoundIsUnique(arr, t, n);
    } else if t > arr[n].lastUpdated {
      LowerBoundIsUnique(arr, t, n + 1);
    }
  }

  /** Strictly between two adjacent prices the error is the gap between them. */
  lemma ErrorInside(arr: seq<TokenPrice>, i: nat, t: int)
    requires StrictlySorted(arr) && i + 1 < |arr| && arr[i].lastUpdated < t < arr[i + 1].lastUpdated
    ensures EstimateOf(arr, t).error == arr[i + 1].lastUpdated - arr[i].lastUpdated
  {
    LowerBoundIsUnique(arr, t, i + 1);
  }

  /** No gap of more than a day lies around the time. */
  predicate NoWideGap(arr: seq<TokenPrice>, t: int) {
    forall i :: 0 <= i < |arr| - 1 && arr[i].lastUpdated < t < arr[i + 1].lastUpdated ==>
      arr[i + 1].lastUpdated - arr[i].lastUpdated <= 24 * HOUR
  }

  lemma Located(arr: seq<TokenPrice>, t: int) returns (i: nat)
    requires StrictlySorted(arr) && arr != [] && arr[0].lastUpdated < t < arr[|arr| - 1].lastUpdated
    ensures i < |arr| - 1 && arr[i].lastUpdated < t <= arr[i + 1].lastUpdated
    ensures forall k :: 0 <= k < |arr| - 1 && arr[k].lastUpdated < t < arr[k + 1].lastUpdated ==> k == i
  {
    i := LowerBound(arr, t) - 1;
  }

  /** The signed test accepts exactly the times up to a day after the last price, except inside gaps of more than
      a day; any time before the first price is accepted. */
  lemma AcceptedSignedIff(arr: seq<TokenPrice>, t: int)
    requires StrictlySorted(arr)
    ensures AcceptedSigned(EstimateOf(arr, t)) <==>
      arr != [] && t <= arr[|arr| - 1].lastUpdated + 24 * HOUR && NoWideGap(arr, t)
  {
    if arr != [] {
      ErrorOutside(arr, t);
      if arr[0].lastUpdated < t < arr[|arr| - 1].lastUpdated {
        AcceptedInsideIff(arr, t);
      } else {
        NoGapOutside(arr, t);
      }
    }
  }

  lemma NoGapOutside(arr: seq<TokenPrice>, t: int)
    requires StrictlySorted(arr) && arr != [] && !(arr[0].lastUpdated < t < arr[|arr| - 1].lastUpdated)
    ensures NoWideGap(arr, t)
  {
    forall k | 0 <= k < |arr| ensures arr[0].lastUpdated <= arr[k].lastUpdated <= arr[|arr| - 1].lastUpdated {
    }
  }

  lemma AcceptedInsideIff(arr: seq<TokenPrice>, t: int)
    requires StrictlySorted(arr) && arr != [] && arr[0].lastUpdated < t < arr[|arr| - 1].lastUpdated
    ensures AcceptedSigned(EstimateOf(arr, t)) <==> NoWideGap(arr, t)
  {
    var i := Located(arr, t);
    if t == arr[i + 1].lastUpdated {
      HitsStoredPoints(arr, i + 1);
    } else {
      ErrorInside(arr, i, t);
    }
  }

  /** The absolute test accepts of these exactly the times from a day before the first price. */
  lemma AcceptedAbsoluteIff(arr: seq<TokenPrice>, t: int)
    requires StrictlySorted(arr)
    ensures AcceptedAbsolute(EstimateOf(arr, t)) <==>
      && arr != [] && arr[0].lastUpdated - 24 * HOUR <= t <= arr[|arr| - 1].lastUpdated + 24 * HOUR
      && NoWideGap(arr, t)
  {
    AcceptedSignedIff(arr, t);
    TestsDisagree(arr, t);
  }

  /** The error is negative for exactly the times before the first stored price; the two tests
      disagree for exactly the times more than a day before it. */
  lemma TestsDisagree(arr: seq<TokenPrice>, t: int)
    requires StrictlySorted(arr)
    ensures EstimateOf(arr, t).error < 0 <==> arr != [] && t < arr[0].lastUpdated
    ensures AcceptedSigned(EstimateOf(arr, t)) != AcceptedAbsolute(EstimateOf(arr, t))
      <==> arr != [] && t < arr[0].lastUpdated - DAY
  {
    var i := LowerBound(arr, t);
    assert i > 0 ==> arr[0].lastUpdated <= arr[i - 1].lastUpdated;
  }
}
