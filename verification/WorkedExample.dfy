/** Two worked instances of the window-sum theorems, down to the published numbers. They show that the theorems'
    premises can be met together. */
module WorkedExample {
  import opened Types
  import opened MachineInts
  import opened BlockClock
  import opened PriceArrays
  import opened PriceEstimate
  import opened PriceIndex
  import opened PoolCache
  import opened VolumeSweep
  import opened VolumePipeline
  import opened WindowSums
  import opened Horizons
  import opened PoolsOfInterest
  import opened CoinValues

  // ----- A pool with one coin, cached at some heights -----

  function PoolAt(height: nat, amount: nat): Pool { Pool(height, 1, [], [Coin(BASE_VOLUME_DENOM, amount)]) }

  function PoolsAt(heights: set<nat>, amount: nat -> nat): PoolTable {
    map h | h in heights :: map[1 := PoolAt(h, amount(h))]
  }

  lemma PoolsDistinct(s: Source, heights: set<nat>, amount: nat -> nat, lo: nat, hi: nat)
    requires s.pools == PoolsAt(heights, amount)
    ensures DistinctCached(s, 1, lo, hi)
  {
  }

  lemma PoolsPoint(s: Source, heights: set<nat>, amount: nat -> nat, h: nat, price: real)
    requires s.pools == PoolsAt(heights, amount)
    requires EstimateAt(s, h, BASE_VOLUME_DENOM).price == price
    requires AcceptedSigned(EstimateAt(s, h, BASE_VOLUME_DENOM))
    ensures Point(s, 1, h) == if h in heights then Some(PriceAt(h, amount(h), price)) else None
  {
    if h in heights {
      var coins := [Coin(BASE_VOLUME_DENOM, amount(h))];
      assert Lookup(s.pools, h, 1) == Some(PoolAt(h, amount(h)));
      DistinctCoinPoints(s, coins, h, BASE_VOLUME_DENOM);
      assert coins[0] in coins;
    }
  }

  // ----- Two snapshots while the price rises -----

  /** The pool is cached at heights 3 and 5 with volumes 60 and 100, ten seconds apart; the price goes from 0.25
      to 0.75 meanwhile. */
  function RisingSource(): Source {
    Source(PoolsAt({3, 5}, h => 20 * h), map[BASE_VOLUME_DENOM := RisingPrices()], Clock(5, 10 * SECOND, 720, 0, 0))
  }

  function RisingPrices(): seq<TokenPrice> {
    [TokenPrice(0, 0.25, BASE_VOLUME_DENOM, "USD"), TokenPrice(10 * SECOND, 0.75, BASE_VOLUME_DENOM, "USD")]
  }

  lemma RisingEstimates()
    ensures EstimateOf(RisingPrices(), 0) == Estimation(0.25, 0)
    ensures EstimateOf(RisingPrices(), 10 * SECOND) == Estimation(0.75, 0)
    ensures EstimateOf(RisingPrices(), 5 * SECOND).error == 10 * SECOND
  {
    HitsStoredPoints(RisingPrices(), 0);
    HitsStoredPoints(RisingPrices(), 1);
    LowerBoundIsUnique(RisingPrices(), 5 * SECOND, 1);
  }

  lemma RisingTimes(c: Clock)
    requires c == Clock(5, 10 * SECOND, 720, 0, 0)
    ensures BlockToTimestamp(c, 3) == 0 && BlockToTimestamp(c, 4) == 5 * SECOND
    ensures BlockToTimestamp(c, 5) == 10 * SECOND
  {
    TimestampIsShift(c, 3);
    TimestampIsShift(c, 4);
    TimestampIsShift(c, 5);
  }

  lemma RisingPoints(s: Source)
    requires s == RisingSource()
    ensures Point(s, 1, 3) == Some(PriceAt(3, 60, 0.25))
    ensures Point(s, 1, 4) == None
    ensures Point(s, 1, 5) == Some(PriceAt(5, 100, 0.75))
  {
    RisingTimes(s.clock);
    RisingEstimates();
    PoolsPoint(s, {3, 5}, h => 20 * h, 3, 0.25);
    PoolsPoint(s, {3, 5}, h => 20 * h, 4, EstimateAt(s, 4, BASE_VOLUME_DENOM).price);
    PoolsPoint(s, {3, 5}, h => 20 * h, 5, 0.75);
  }

  lemma RisingSums(s: Source)
    requires Point(s, 1, 3) == Some(PriceAt(3, 60, 0.25))
    requires Point(s, 1, 4) == None
    requires Point(s, 1, 5) == Some(PriceAt(5, 100, 0.75))
    ensures WindowSum(s, 1, 5, 5) == 0.0 && WindowSum(s, 1, 3, 5) == 20.0
  {
    assert Lowest(s, 1, 6, 5) == None && Lowest(s, 1, 5, 5) == Some(PriceAt(5, 100, 0.75));
    assert Lowest(s, 1, 4, 5) == Some(PriceAt(5, 100, 0.75));
    TrapezoidRule(s, 1, 4, 5);
    TrapezoidRule(s, 1, 5, 5);
    assert WindowSum(s, 1, 6, 5) == 0.0;
    TrapezoidRule(s, 1, 3, 5);
  }

  lemma RangeOfOne(s: Source, vols: seq<VolumeAt>)
    requires |vols| == 1 && 0 <= vols[0].blockHeight <= s.clock.height < TWO_63
    ensures Oldest(s, vols) == vols[0].blockHeight == Newest(vols)
  {
    assert vols[..0] == [];
    assert Oldest(s, vols[..0]) == s.clock.height + 10 && Newest(vols[..0]) == 0;
  }

  lemma RangeOfTwo(s: Source, vols: seq<VolumeAt>)
    requires |vols| == 2 && 0 <= vols[0].blockHeight < vols[1].blockHeight <= s.clock.height < TWO_63
    ensures Oldest(s, vols) == vols[0].blockHeight && Newest(vols) == vols[1].blockHeight
  {
    RangeOfOne(s, vols[..1]);
  }

  lemma TwoInOrder(after: seq<VolumeAt>, v: VolumeAt, w: VolumeAt)
    requires |after| == 2 && NewestToOldest(after) && v in after && w in after && v.blockHeight > w.blockHeight
    ensures after == [v, w]
  {
    assert after[0].blockHeight > after[1].blockHeight;
  }

  lemma RisingPremises(s: Source, vols: seq<VolumeAt>)
    requires s == RisingSource()
    requires |vols| == 2 && vols[0].blockHeight == 3 && vols[1].blockHeight == 5
    ensures Oldest(s, vols) == 3 && Newest(vols) == 5
    ensures DistinctHeights(vols) && AllCached(s, 1, vols) && DistinctCached(s, 1, 3, 5)
  {
    RisingPoints(s);
    TwoCached(s, vols);
    RisingClock(s);
    RangeOfTwo(s, vols);
    PoolsDistinct(s, {3, 5}, h => 20 * h, 3, 5);
  }

  lemma RisingClock(s: Source)
    requires s == RisingSource()
    ensures s.clock.height == 5
  {
  }

  lemma TwoCached(s: Source, vols: seq<VolumeAt>)
    requires |vols| == 2 && vols[0].blockHeight == 3 && vols[1].blockHeight == 5
    requires Point(s, 1, 3).Some? && Point(s, 1, 5).Some?
    ensures DistinctHeights(vols) && AllCached(s, 1, vols)
  {
  }

  /** The older snapshot gets (100 - 60) * 0.5, the newer one 0. */
  lemma RisingPublished(s: Source, vols: seq<VolumeAt>, after: seq<VolumeAt>)
    requires s == RisingSource()
    requires |vols| == 2 && vols[0].blockHeight == 3 && vols[1].blockHeight == 5
    requires RelativeOutcome(s, 1, vols, after)
    ensures after == [WithSum(vols[1], 0.0), WithSum(vols[0], 20.0)]
  {
    RisingPremises(s, vols);
    RisingPoints(s);
    RisingSums(s);
    SnapshotsHoldWindowSums(s, 1, vols, after);
    assert vols[0] in vols && vols[1] in vols;
    TwoInOrder(after, WithSum(vols[1], 0.0), WithSum(vols[0], 20.0));
  }

  // ----- The five horizons at a steady rate and price -----

  const TOP: nat := 20_000

  /** The heights 0, 1, 4, 12 and 24 hours back at 720 blocks an hour. */
  function Cached(): set<nat> { {20_000, 19_280, 17_120, 11_360, 2_720} }

  /** The cumulative volume at a height is the height itself; the price is 2 since time 0, the time of the
      current block. */
  function SteadySource(): Source {
    Source(PoolsAt(Cached(), h => h), map[BASE_VOLUME_DENOM := SteadyPrices()], Clock(TOP, 0, 720, 0, 0))
  }

  function SteadyPrices(): seq<TokenPrice> { [TokenPrice(0, 2.0, BASE_VOLUME_DENOM, "USD")] }

  function SteadyEnv(): Env {
    Env((t: nat, id: nat) => Lookup(PoolsAt(Cached(), h => h), t, id), TOP, 5 * SECOND)
  }

  function SteadyEnvs(): seq<Env> { [SteadyEnv(), SteadyEnv(), SteadyEnv(), SteadyEnv(), SteadyEnv()] }

  lemma {:induction false} SteadyDelta(envs: seq<Env>, n: nat)
    requires envs == SteadyEnvs() && Environments(envs) && 0 < n <= |HORIZONS|
    ensures HorizonHeight(envs, TOP, n) == TOP - HORIZONS[n - 1] / (5 * SECOND)
  {
    DeltaIsQuotient(envs, n);
  }

  lemma {:induction false} SteadyHeights(envs: seq<Env>)
    requires envs == SteadyEnvs()
    ensures Environments(envs) && BlocksGrow(envs)
    ensures forall n :: 0 <= n <= |HORIZONS| ==> HorizonHeight(envs, TOP, n) == HeightOf(n)
  {
    forall n | 0 <= n <= |HORIZONS| ensures HorizonHeight(envs, TOP, n) == HeightOf(n) {
      if n > 0 {
        SteadyDelta(envs, n);
      }
    }
    NeverSlowerGrows(envs);
  }

  function HeightOf(n: nat): (t: nat)
    requires n <= |HORIZONS|
    ensures t in Cached() && t <= TOP
  {
    if n == 0 then 20_000 else if n == 1 then 19_280 else if n == 2 then 17_120 else if n == 3 then 11_360 else 2_720
  }

  lemma SteadyEstimate(c: Clock, t: nat)
    requires c == Clock(TOP, 0, 720, 0, 0) && t <= TOP
    ensures EstimateOf(SteadyPrices(), BlockToTimestamp(c, t)).price == 2.0
    ensures AcceptedSigned(EstimateOf(SteadyPrices(), BlockToTimestamp(c, t)))
  {
    TimestampIsShift(c, t);
    OutsideRange(SteadyPrices(), BlockToTimestamp(c, t));
  }

  lemma SteadyPoint(s: Source, t: nat)
    requires s == SteadySource() && t <= TOP
    ensures AcceptedSigned(EstimateAt(s, t, BASE_VOLUME_DENOM))
    ensures Point(s, 1, t) == if t in Cached() then Some(PriceAt(t, t, 2.0)) else None
  {
    SteadyEstimate(s.clock, t);
    PoolsPoint(s, Cached(), h => h, t, 2.0);
  }

  lemma SteadyLookup(t: nat)
    ensures Lookup(PoolsAt(Cached(), h => h), t, 1) == if t in Cached() then Some(PoolAt(t, t)) else None
  {
  }

  /** The premises of the end-to-end theorem are met. */
  lemma {:induction false} SteadyAssembled(s: Source, envs: seq<Env>, ids: seq<nat>)
    requires s == SteadySource() && envs == SteadyEnvs() && ids == [1]
    ensures Assembled(s, envs, TOP, ids, 0)
  {
    SteadyHeights(envs);
    forall n | 0 <= n <= |HORIZONS|
      ensures var t := HorizonHeight(envs, TOP, n);
        && 0 < t <= TOP && envs[n].look(t, 1) == Lookup(s.pools, t, 1) == Some(PoolAt(t, t))
        && HasCoin(PoolAt(t, t).volume, BASE_VOLUME_DENOM) && AcceptedSigned(EstimateAt(s, t, BASE_VOLUME_DENOM))
    {
      SteadyHorizon(s, envs[n], HeightOf(n));
    }
    PoolsDistinct(s, Cached(), h => h, 0, TOP);
  }

  lemma SteadyHorizon(s: Source, env: Env, t: nat)
    requires s == SteadySource() && env == SteadyEnv() && t in Cached()
    ensures env.look(t, 1) == Lookup(s.pools, t, 1) == Some(PoolAt(t, t))
    ensures HasCoin(PoolAt(t, t).volume, BASE_VOLUME_DENOM) && AcceptedSigned(EstimateAt(s, t, BASE_VOLUME_DENOM))
  {
    SteadyLookup(t);
    SteadyPoint(s, t);
    assert Coin(BASE_VOLUME_DENOM, t) in PoolAt(t, t).volume;
  }

  lemma {:induction false} HighestIsTop(s: Source, id: nat, lo: nat, hi: nat)
    requires lo <= hi && Point(s, id, hi).Some?
    ensures Highest(s, id, lo, hi) == Point(s, id, hi)
    decreases hi - lo
  {
    if lo < hi {
      HighestIsTop(s, id, lo + 1, hi);
    }
  }

  /** At a constant price the bounds meet, so the window sum is the traded volume at that price. */
  lemma SteadySum(s: Source, t: nat)
    requires s == SteadySource() && t in Cached()
    ensures WindowSum(s, 1, t, TOP) == (TOP - t) as real * 2.0
  {
    SteadyBounds(s);
    SteadyPoint(s, t);
    SteadyPoint(s, TOP);
    ConstantPriceSum(s, t, TOP);
  }

  /** At a constant price the bounds meet: the window sum is the traded volume at that price. */
  lemma ConstantPriceSum(s: Source, lo: nat, hi: nat)
    requires lo <= hi && Point(s, 1, lo) == Some(PriceAt(lo, lo, 2.0)) && Point(s, 1, hi) == Some(PriceAt(hi, hi, 2.0))
    requires ValidPrices(s.prices) && VolumeGrows(s, 1, 0, hi) && StoredWithin(s, 2.0, 2.0)
    ensures WindowSum(s, 1, lo, hi) == (hi - lo) as real * 2.0
  {
    HighestIsTop(s, 1, lo, hi);
    WindowSumBounds(s, 1, lo, hi, 2.0, 2.0);
  }

  lemma SteadyBounds(s: Source)
    requires s == SteadySource()
    ensures VolumeGrows(s, 1, 0, TOP) && StoredWithin(s, 2.0, 2.0) && ValidPrices(s.prices)
  {
    forall h | 0 <= h <= TOP ensures Point(s, 1, h).Some? ==> Point(s, 1, h).value.volume == h {
      SteadyPoint(s, h);
    }
  }

  lemma AtPriceTwo(arr: seq<TokenPrice>, t: int, amount: int, v: real)
    requires arr != [] && arr[0].value == 2.0 && IsValue(arr, t, amount, v)
    requires arr[0].lastUpdated - 24 * HOUR <= t <= arr[0].lastUpdated
    ensures v == amount as real * 2.0
  {
    assert IsOutsideValue(arr, t, amount, v);
  }

  lemma SteadyIndex(s: Source)
    requires s == SteadySource()
    ensures ArrayOf(s.prices, BASE_VOLUME_DENOM) == SteadyPrices() && ValidPrices(s.prices)
    ensures s.clock == Clock(TOP, 0, 720, 0, 0)
  {
  }

  lemma SteadyValue(s: Source, t: nat)
    requires s == SteadySource() && t in Cached()
    ensures ValuesOf(s, t, PoolAt(t, t).volume) == [t as real * 2.0]
  {
    SteadyIndex(s);
    SteadyTime(s.clock, t);
    var values := ValuesOf(s, t, PoolAt(t, t).volume);
    ValuesAreValues(s, t, PoolAt(t, t).volume, 0);
    AtPriceTwo(SteadyPrices(), BlockToTimestamp(s.clock, t), t, values[0]);
    assert values == [values[0]];
  }

  lemma SteadyTime(c: Clock, t: nat)
    requires c == Clock(TOP, 0, 720, 0, 0) && t in Cached()
    ensures -24 * HOUR <= BlockToTimestamp(c, t) <= 0
  {
    TimestampIsShift(c, t);
    SpanGrows(TOP - t, 17_280, 720);
  }

  /** What is published: for the last hour 720 blocks of volume 1 at price 2, and so on. */
  lemma {:induction false} SteadyPublished(s: Source, envs: seq<Env>, ids: seq<nat>, after: seq<VolumeAt>, n: nat)
    requires s == SteadySource() && envs == SteadyEnvs() && ids == [1] && n <= |HORIZONS|
    requires Environments(envs) && RelativeOutcome(s, ids[0], Valued(s, VolumesOf(envs, TOP, ids, 0)), after)
    ensures |after| == |HORIZONS| + 1
    ensures after[n] == VolumeAt(HeightOf(n), [Coin(BASE_VOLUME_DENOM, HeightOf(n))], [HeightOf(n) as real * 2.0],
      [if n == 0 then 0.0 else if n == 1 then 1440.0 else if n == 2 then 5760.0 else if n == 3 then 17280.0 else 34560.0])
  {
    SteadyAssembled(s, envs, ids);
    SteadyHeights(envs);
    SteadySum(s, HeightOf(n));
    SteadyValue(s, HeightOf(n));
    SteadyHorizon(s, envs[n], HeightOf(n));
    PublishedHorizon(s, envs, TOP, ids, 0, after, n, HeightOf(n));
  }

  lemma {:induction false} PublishedHorizon(s: Source, envs: seq<Env>, h: nat, ids: seq<nat>, i: nat,
                                            after: seq<VolumeAt>, n: nat, t: nat)
    requires Assembled(s, envs, h, ids, i) && BlocksGrow(envs) && n <= |HORIZONS| && t == HorizonHeight(envs, h, n)
    requires RelativeOutcome(s, ids[i], Valued(s, VolumesOf(envs, h, ids, i)), after)
    ensures |after| == |HORIZONS| + 1 && envs[n].look(t, ids[i]).Some?
    ensures var volume := envs[n].look(t, ids[i]).value.volume;
      after[n] == VolumeAt(t, volume, ValuesOf(s, t, volume), [WindowSum(s, ids[i], t, h)])
  {
    HorizonsInOrder(s, envs, h, ids, i, after, n);
  }
}
