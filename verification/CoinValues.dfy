/** What the dollar values of `calculateVolumeValueAt` (internal/indexer/volume.go) are, in plain arithmetic over a
    token's stored prices. */
module CoinValues {
  import opened Types
  import opened BlockClock
  import opened PriceArrays
  import opened PriceEstimate
  import opened PriceIndex
  import opened VolumeSweep
  import opened VolumePipeline

  /** The value of an amount at time `t`: at a stored time, the amount times the stored price; between two prices,
      times the line through them if they are at most a day apart; up to a day outside the stored range, times
      the nearest price; and 0 otherwise. */
  ghost predicate IsValue(arr: seq<TokenPrice>, t: int, amount: int, v: real) {
    && (arr == [] ==> v == 0.0)
    && (arr != [] ==> IsOutsideValue(arr, t, amount, v))
    && (forall i :: 0 <= i < |arr| && arr[i].lastUpdated == t ==> v == amount as real * arr[i].value)
    && (forall i :: 0 <= i < |arr| - 1 && arr[i].lastUpdated < t < arr[i + 1].lastUpdated ==>
         IsInsideValue(arr[i], arr[i + 1], t, amount, v))
  }

  predicate IsOutsideValue(arr: seq<TokenPrice>, t: int, amount: int, v: real)
    requires arr != []
  {
    var first, last := arr[0], arr[|arr| - 1];
    && (t < first.lastUpdated - 24 * HOUR || last.lastUpdated + 24 * HOUR < t ==> v == 0.0)
    && (first.lastUpdated - 24 * HOUR <= t <= first.lastUpdated ==> v == amount as real * first.value)
    && (last.lastUpdated <= t <= last.lastUpdated + 24 * HOUR ==> v == amount as real * last.value)
  }

  predicate IsInsideValue(p: TokenPrice, q: TokenPrice, t: int, amount: int, v: real)
    requires p.lastUpdated < q.lastUpdated
  {
    v == if q.lastUpdated - p.lastUpdated <= 24 * HOUR then amount as real * Line(p, q, t) else 0.0
  }

  lemma Product(amount: int, price: real)
    ensures CalculatePrice(amount, price) == amount as real * price
  {
  }

  /** What the code computes from an estimate. */
  predicate FromEstimate(e: Estimation, amount: int, v: real) {
    v == if AcceptedAbsolute(e) then CalculatePrice(amount, e.price) else 0.0
  }

  lemma InsideValue(arr: seq<TokenPrice>, i: nat, t: int, amount: int, v: real)
    requires StrictlySorted(arr) && i + 1 < |arr| && arr[i].lastUpdated < t < arr[i + 1].lastUpdated
    requires FromEstimate(EstimateOf(arr, t), amount, v)
    ensures IsInsideValue(arr[i], arr[i + 1], t, amount, v)
  {
    ErrorInside(arr, i, t);
    OnSegment(arr, i, t);
    Product(amount, Line(arr[i], arr[i + 1], t));
  }

  lemma OutsideValue(arr: seq<TokenPrice>, t: int, amount: int, v: real)
    requires StrictlySorted(arr) && arr != [] && FromEstimate(EstimateOf(arr, t), amount, v)
    ensures IsOutsideValue(arr, t, amount, v)
  {
    var n := |arr| - 1;
    assert n > 0 ==> arr[0].lastUpdated < arr[n].lastUpdated;
    ErrorOutside(arr, t);
    OutsideRange(arr, t);
    Product(amount, arr[0].value);
    Product(amount, arr[n].value);
  }

  lemma StoredValue(arr: seq<TokenPrice>, i: nat, t: int, amount: int, v: real)
    requires StrictlySorted(arr) && i < |arr| && arr[i].lastUpdated == t && FromEstimate(EstimateOf(arr, t), amount, v)
    ensures v == amount as real * arr[i].value
  {
    HitsStoredPoints(arr, i);
    Product(amount, arr[i].value);
  }

  /** What the code computes from the estimate is that value, at every time. */
  lemma EstimateGivesValue(arr: seq<TokenPrice>, t: int, amount: int, v: real)
    requires StrictlySorted(arr) && FromEstimate(EstimateOf(arr, t), amount, v)
    ensures IsValue(arr, t, amount, v)
  {
    if arr == [] {
      ErrorWithoutPrices(t);
    } else {
      OutsideValue(arr, t, amount, v);
    }
    forall i | 0 <= i < |arr| && arr[i].lastUpdated == t ensures v == amount as real * arr[i].value {
      StoredValue(arr, i, t, amount, v);
    }
    forall i | 0 <= i < |arr| - 1 && arr[i].lastUpdated < t < arr[i + 1].lastUpdated
      ensures IsInsideValue(arr[i], arr[i + 1], t, amount, v)
    {
      InsideValue(arr, i, t, amount, v);
    }
  }

  lemma ArraysAreSorted(prices: Prices, name: string)
    requires ValidPrices(prices)
    ensures StrictlySorted(ArrayOf(prices, name))
  {
  }

  /** Coin by coin, at the estimated time of a block. */
  lemma ValuesAreValues(s: Source, height: nat, coins: seq<Coin>, k: nat)
    requires ValidPrices(s.prices) && k < |coins|
    ensures |ValuesOf(s, height, coins)| == |coins|
    ensures IsValue(ArrayOf(s.prices, coins[k].denom), BlockToTimestamp(s.clock, height), coins[k].amount,
                    ValuesOf(s, height, coins)[k])
  {
    ArraysAreSorted(s.prices, coins[k].denom);
    EstimateGivesValue(ArrayOf(s.prices, coins[k].denom), BlockToTimestamp(s.clock, height), coins[k].amount,
                       ValuesOf(s, height, coins)[k]);
  }

  /** A value that is not rejected lies between the amount times the lowest and times the highest stored price. */
  lemma ValueIsWithin(arr: seq<TokenPrice>, t: int, amount: int, v: real, low: real, high: real)
    requires StrictlySorted(arr) && amount >= 0 && FromEstimate(EstimateOf(arr, t), amount, v)
    requires UsablyPriced(arr, t, low, high)
    ensures IsWithin(v, amount, low, high)
  {
    AcceptedAbsoluteIff(arr, t);
    StaysInRange(arr, t, low, high);
    ProductIsWithin(amount, Price(arr, t), low, high);
  }

  lemma ProductIsWithin(amount: nat, price: real, low: real, high: real)
    requires low <= price <= high
    ensures IsWithin(CalculatePrice(amount, price), amount, low, high)
  {
    ScaleMonotone(amount as real, low, price);
    ScaleMonotone(amount as real, price, high);
  }

  lemma ValueIsFromEstimate(prices: Prices, t: int, coin: Coin)
    ensures FromEstimate(EstimateOf(ArrayOf(prices, coin.denom), t), coin.amount, ValueAtTime(prices, t, coin))
  {
  }

  lemma ValueAtTimeIsWithin(prices: Prices, t: int, coin: Coin, low: real, high: real)
    requires ValidPrices(prices) && coin.amount >= 0 && UsablyPriced(ArrayOf(prices, coin.denom), t, low, high)
    ensures IsWithin(ValueAtTime(prices, t, coin), coin.amount, low, high)
  {
    ArraysAreSorted(prices, coin.denom);
    ValueIsFromEstimate(prices, t, coin);
    ValueIsWithin(ArrayOf(prices, coin.denom), t, coin.amount, ValueAtTime(prices, t, coin), low, high);
  }

  /** The time is at most a day outside the stored range and in no gap of more than a day, and the stored prices
      are between `low` and `high`. */
  ghost predicate UsablyPriced(arr: seq<TokenPrice>, t: int, low: real, high: real) {
    && arr != [] && (forall p :: p in arr ==> low <= p.value <= high)
    && arr[0].lastUpdated - 24 * HOUR <= t <= arr[|arr| - 1].lastUpdated + 24 * HOUR && NoWideGap(arr, t)
  }

  predicate IsWithin(v: real, amount: int, low: real, high: real) {
    low * amount as real <= v <= high * amount as real
  }

  /** For a coin of a valued pool state. */
  lemma ValuesAreWithin(s: Source, height: nat, coins: seq<Coin>, k: nat, low: real, high: real)
    requires ValidPrices(s.prices) && k < |coins| && coins[k].amount >= 0
    requires UsablyPriced(ArrayOf(s.prices, coins[k].denom), BlockToTimestamp(s.clock, height), low, high)
    ensures IsWithin(ValuesOf(s, height, coins)[k], coins[k].amount, low, high)
  {
    ValueAtTimeIsWithin(s.prices, BlockToTimestamp(s.clock, height), coins[k], low, high);
  }
}
