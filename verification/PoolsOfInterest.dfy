/** From assembly to published numbers: the snapshots that `getPoolsOfInterestStatuses` assembles, valued and
    swept by `calculatePoolVolumes`. */
module PoolsOfInterest {
  import opened Types
  import opened MachineInts
  import opened PriceEstimate
  import opened PoolCache
  import opened Horizons
  import opened VolumeSweep
  import opened VolumePipeline
  import opened WindowSums

  lemma ValuedOnly(s: Source, vols: seq<VolumeAt>)
    ensures |Valued(s, vols)| == |vols|
    ensures forall k :: 0 <= k < |vols| ==>
      Valued(s, vols)[k] == VolumeAt(vols[k].blockHeight, vols[k].volume,
                                     ValuesOf(s, Uint64(vols[k].blockHeight), vols[k].volume), vols[k].relativeVolumeUSD)
  {
  }

  // ----- Which snapshot is whose -----

  predicate HasHeight(vols: seq<VolumeAt>, h: int) {
    exists k :: 0 <= k < |vols| && vols[k].blockHeight == h
  }

  /** As many snapshots, newest first, as there are heights, newest first, and one for each height. */
  predicate OneForEach(vols: seq<VolumeAt>, hs: seq<int>) {
    && NewestToOldest(vols) && |vols| == |hs|
    && (forall m, n :: 0 <= m < n < |hs| ==> hs[m] > hs[n])
    && (forall n :: 0 <= n < |hs| ==> HasHeight(vols, hs[n]))
  }

  lemma {:induction false} NotBefore(vols: seq<VolumeAt>, hs: seq<int>, n: nat, p: nat)
    requires OneForEach(vols, hs) && n < |hs| && p < |vols| && vols[p].blockHeight == hs[n]
    ensures n <= p
  {
    if n > 0 {
      assert HasHeight(vols, hs[n - 1]);
      var q :| 0 <= q < |vols| && vols[q].blockHeight == hs[n - 1];
      NotBefore(vols, hs, n - 1, q);
      assert vols[q].blockHeight > vols[p].blockHeight;
    }
  }

  lemma {:induction false} NotAfter(vols: seq<VolumeAt>, hs: seq<int>, n: nat, p: nat)
    requires OneForEach(vols, hs) && n < |hs| && p < |vols| && vols[p].blockHeight == hs[n]
    ensures p <= n
    decreases |hs| - n
  {
    if n + 1 < |hs| {
      assert HasHeight(vols, hs[n + 1]);
      var q :| 0 <= q < |vols| && vols[q].blockHeight == hs[n + 1];
      NotAfter(vols, hs, n + 1, q);
      assert vols[p].blockHeight > vols[q].blockHeight;
    }
  }

  /** Then the n-th snapshot is at the n-th height. */
  lemma InTheirPlaces(vols: seq<VolumeAt>, hs: seq<int>, n: nat)
    requires OneForEach(vols, hs) && n < |hs|
    ensures vols[n].blockHeight == hs[n]
  {
    assert HasHeight(vols, hs[n]);
    var p :| 0 <= p < |vols| && vols[p].blockHeight == hs[n];
    NotBefore(vols, hs, n, p);
    NotAfter(vols, hs, n, p);
  }

  lemma SameHeightSameSnapshot(vols: seq<VolumeAt>, v: VolumeAt, n: nat)
    requires NewestToOldest(vols) && v in vols && n < |vols| && vols[n].blockHeight == v.blockHeight
    ensures vols[n] == v
  {
    var k :| 0 <= k < |vols| && vols[k] == v;
  }

  // ----- End to end -----

  function HeightsOf(vols: seq<VolumeAt>): seq<int> {
    seq(|vols|, n requires 0 <= n < |vols| => vols[n].blockHeight)
  }

  lemma SameHeights(s: Source, id: nat, hi: nat, before: seq<VolumeAt>, after: seq<VolumeAt>)
    requires NewestToOldest(before) && NewestToOldest(after) && |after| == |before|
    requires forall v :: v in before ==> v.blockHeight >= 0
    requires forall v :: v in before ==> WithSum(v, WindowSum(s, id, v.blockHeight, hi)) in after
    ensures OneForEach(after, HeightsOf(before))
  {
    forall m | 0 <= m < |before| ensures HasHeight(after, HeightsOf(before)[m]) {
      var v := before[m];
      assert v in before;
      var k :| 0 <= k < |after| && after[k] == WithSum(v, WindowSum(s, id, v.blockHeight, hi));
      assert after[k].blockHeight == v.blockHeight;
    }
  }

  /** Snapshots that go in newest first come out in the same places, each with its window sum. */
  lemma SumsInPlace(s: Source, id: nat, before: seq<VolumeAt>, after: seq<VolumeAt>, n: nat)
    requires before != [] && NewestToOldest(before) && AllCached(s, id, before)
    requires DistinctCached(s, id, Oldest(s, before), Newest(before))
    requires RelativeOutcome(s, id, before, after) && n < |before|
    ensures |after| == |before| && before[n].blockHeight >= 0
    ensures after[n] == WithSum(before[n], WindowSum(s, id, before[n].blockHeight, Newest(before)))
  {
    SnapshotsHoldWindowSums(s, id, before, after);
    SameHeights(s, id, Newest(before), before, after);
    InTheirPlaces(after, HeightsOf(before), n);
    assert before[n] in before;
    SameHeightSameSnapshot(after, WithSum(before[n], WindowSum(s, id, before[n].blockHeight, Newest(before))), n);
  }

  /** The cache holds what the lookups of an assembly returned, as a successful lookup leaves it. */
  ghost predicate CacheHolds(s: Source, envs: seq<Env>, h: nat, id: nat)
    requires Environments(envs)
  {
    forall n :: 0 <= n <= |HORIZONS| ==>
      var t := HorizonHeight(envs, h, n);
      t > 0 && envs[n].look(t, id).Some? && Lookup(s.pools, t, id) == envs[n].look(t, id)
  }

  /** And it does: if each lookup of the assembly went through `getPool`, and whatever happened between it and the
      valuation neither restarted nor pruned the height, the cache holds what the lookup returned. */
  lemma {:induction false} LookupsFillCache(s: Source, envs: seq<Env>, h: nat, id: nat, chain: Chain,
                          caches: seq<Cache>, calls: seq<Calls>, since: seq<seq<PoolCache.Step>>)
    requires Environments(envs) && |caches| == |calls| == |since| == |HORIZONS| + 1
    requires forall n :: 0 <= n <= |HORIZONS| ==>
      var t := HorizonHeight(envs, h, n);
      && t > 0 && envs[n].look(t, id).Some?
      && GetResult(chain, caches[n], t, id, calls[n]) == Success(envs[n].look(t, id).value)
      && s.pools == PoolCache.Run(chain, AfterGet(chain, caches[n], t, id, calls[n]), since[n]).memory
      && forall k :: 0 <= k < |since[n]| ==> Spares(since[n][k], t)
    ensures CacheHolds(s, envs, h, id)
  {
    forall n | 0 <= n <= |HORIZONS|
      ensures var t := HorizonHeight(envs, h, n);
        t > 0 && envs[n].look(t, id).Some? && Lookup(s.pools, t, id) == envs[n].look(t, id)
    {
      SuccessIsCached(chain, caches[n], HorizonHeight(envs, h, n), id, calls[n], since[n]);
    }
  }

  /** What such a lookup returned is the chain's own answer. */
  lemma {:induction false} LookupIsAnswer(envs: seq<Env>, h: nat, id: nat, n: nat, chain: Chain, c: Cache, calls: Calls)
    requires Environments(envs) && n <= |HORIZONS| && HorizonHeight(envs, h, n) > 0 && Transparent(chain, c)
    requires envs[n].look(HorizonHeight(envs, h, n), id).Some?
    requires GetResult(chain, c, HorizonHeight(envs, h, n), id, calls)
      == Success(envs[n].look(HorizonHeight(envs, h, n), id).value)
    ensures var t := HorizonHeight(envs, h, n);
      && envs[n].look(t, id).value.liquidity == chain(t, id).liquidity
      && envs[n].look(t, id).value.volume == chain(t, id).volume
  {
    assert PoolCache.Run(chain, c, []) == c;
    LookupIsTransparent(chain, c, [], HorizonHeight(envs, h, n), id, calls);
  }

  predicate HasCoin(coins: seq<Coin>, denom: string) {
    exists c :: c in coins && c.denom == denom
  }

  /** The base denomination is among the coins of each of these pool states, and it has a usable price
      estimate at each of these heights. */
  ghost predicate Priced(s: Source, envs: seq<Env>, h: nat, id: nat)
    requires Environments(envs) && CacheHolds(s, envs, h, id)
  {
    forall n :: 0 <= n <= |HORIZONS| ==>
      var t := HorizonHeight(envs, h, n);
      HasCoin(Lookup(s.pools, t, id).value.volume, BASE_VOLUME_DENOM) && AcceptedSigned(EstimateAt(s, t, BASE_VOLUME_DENOM))
  }

  /** A cached state with the coin and a usable estimate has a record. */
  lemma CachedIsPoint(s: Source, id: nat, t: nat)
    requires Lookup(s.pools, t, id).Some? && DistinctDenoms(Lookup(s.pools, t, id).value.volume)
    requires HasCoin(Lookup(s.pools, t, id).value.volume, BASE_VOLUME_DENOM)
    requires AcceptedSigned(EstimateAt(s, t, BASE_VOLUME_DENOM))
    ensures Point(s, id, t).Some?
  {
    DistinctCoinPoints(s, Lookup(s.pools, t, id).value.volume, t, BASE_VOLUME_DENOM);
  }

  /** An assembly without failures, and the state that the valuation then reads. */
  ghost predicate Assembled(s: Source, envs: seq<Env>, h: nat, ids: seq<nat>, i: nat) {
    && Environments(envs) && h < TWO_63 && i < |ids|
    && DistinctIds(ids) && AllSucceed(envs, h, ids)
    && CacheHolds(s, envs, h, ids[i]) && Priced(s, envs, h, ids[i]) && DistinctCached(s, ids[i], 0, h)
  }

  lemma {:induction false} HorizonIsBelow(envs: seq<Env>, h: nat, n: nat)
    requires Environments(envs) && n <= |HORIZONS|
    ensures HorizonHeight(envs, h, n) <= h
  {
    HeightIsBlocksBack(envs, h, n);
  }

  /** A snapshot of horizon `n`: its height, the pool's volume there with its dollar values, and these relative
      volumes. */
  ghost predicate IsHorizon(s: Source, envs: seq<Env>, h: nat, id: nat, n: nat, v: VolumeAt, relative: seq<real>)
    requires Environments(envs) && n <= |HORIZONS|
  {
    var t := HorizonHeight(envs, h, n);
    && t >= 0 && envs[n].look(t, id).Some?
    && v == VolumeAt(t, envs[n].look(t, id).value.volume, ValuesOf(s, t, envs[n].look(t, id).value.volume), relative)
  }

  lemma {:induction false} ValuedHorizon(s: Source, envs: seq<Env>, h: nat, ids: seq<nat>, i: nat, n: nat)
    requires Assembled(s, envs, h, ids, i) && n <= |HORIZONS|
    ensures |Valued(s, VolumesOf(envs, h, ids, i))| == |HORIZONS| + 1
    ensures IsHorizon(s, envs, h, ids[i], n, Valued(s, VolumesOf(envs, h, ids, i))[n], [])
    ensures 0 < HorizonHeight(envs, h, n) <= h && Point(s, ids[i], HorizonHeight(envs, h, n)).Some?
  {
    FiveSnapshots(envs, h, ids, i);
    ValuedOnly(s, VolumesOf(envs, h, ids, i));
    HorizonIsBelow(envs, h, n);
    CachedIsPoint(s, ids[i], HorizonHeight(envs, h, n));
  }

  /** What goes into the sweep: five valued snapshots at the horizons' heights, each with a record. */
  lemma {:induction false} AssembledSnapshots(s: Source, envs: seq<Env>, h: nat, ids: seq<nat>, i: nat)
    requires Assembled(s, envs, h, ids, i)
    ensures var before := Valued(s, VolumesOf(envs, h, ids, i));
      && |before| == |HORIZONS| + 1
      && (forall n :: 0 <= n <= |HORIZONS| ==> before[n].blockHeight == HorizonHeight(envs, h, n))
      && (forall n :: 0 <= n <= |HORIZONS| ==> IsHorizon(s, envs, h, ids[i], n, before[n], []))
      && AllCached(s, ids[i], before) && Newest(before) == h
      && DistinctCached(s, ids[i], Oldest(s, before), Newest(before))
  {
    var before := Valued(s, VolumesOf(envs, h, ids, i));
    ValuedHorizon(s, envs, h, ids, i, 0);
    forall n | 0 <= n <= |HORIZONS|
      ensures before[n].blockHeight == HorizonHeight(envs, h, n) && IsHorizon(s, envs, h, ids[i], n, before[n], [])
      ensures 0 < before[n].blockHeight <= h && Point(s, ids[i], before[n].blockHeight).Some?
    {
      ValuedHorizon(s, envs, h, ids, i, n);
    }
    assert before[0].blockHeight == h;
    NewestIs(before, h);
  }

  lemma NewestIs(vols: seq<VolumeAt>, h: nat)
    requires vols != [] && vols[0].blockHeight == h < TWO_63
    requires forall k :: 0 <= k < |vols| ==> 0 <= vols[k].blockHeight <= h
    ensures Newest(vols) == h
  {
    InRange(Source(map[], map[], BlockClock.Clock(0, 0, 0, 0, 0)), vols, 0);
    var k := NewestIndex(vols);
  }

  /** The published snapshot of horizon `n`: its relative volume is the window sum from its height up to the
      requested one. */
  ghost predicate HoldsHorizon(s: Source, envs: seq<Env>, h: nat, id: nat, n: nat, v: VolumeAt)
    requires Environments(envs) && n <= |HORIZONS|
  {
    && HorizonHeight(envs, h, n) >= 0
    && IsHorizon(s, envs, h, id, n, v, [WindowSum(s, id, HorizonHeight(envs, h, n), h)])
  }

  lemma {:induction false} SummedHorizon(s: Source, envs: seq<Env>, h: nat, id: nat, n: nat, v: VolumeAt)
    requires Environments(envs) && n <= |HORIZONS| && IsHorizon(s, envs, h, id, n, v, [])
    ensures v.blockHeight >= 0 && HoldsHorizon(s, envs, h, id, n, WithSum(v, WindowSum(s, id, v.blockHeight, h)))
  {
  }

  ghost predicate DistinctHorizons(envs: seq<Env>, h: nat)
    requires Environments(envs)
  {
    forall j, k :: 0 <= j < k <= |HORIZONS| ==> HorizonHeight(envs, h, j) != HorizonHeight(envs, h, k)
  }

  lemma {:induction false} DistinctSnapshots(envs: seq<Env>, h: nat, vols: seq<VolumeAt>)
    requires Environments(envs) && DistinctHorizons(envs, h) && |vols| == |HORIZONS| + 1
    requires forall n :: 0 <= n <= |HORIZONS| ==> vols[n].blockHeight == HorizonHeight(envs, h, n)
    ensures DistinctHeights(vols)
  {
  }

  lemma OneHoldsWindowSum(s: Source, id: nat, before: seq<VolumeAt>, after: seq<VolumeAt>, n: nat)
    requires n < |before| && DistinctHeights(before) && AllCached(s, id, before)
    requires DistinctCached(s, id, Oldest(s, before), Newest(before)) && RelativeOutcome(s, id, before, after)
    ensures |after| == |before| && NewestToOldest(after)
    ensures before[n].blockHeight >= 0
    ensures WithSum(before[n], WindowSum(s, id, before[n].blockHeight, Newest(before))) in after
  {
    SnapshotsHoldWindowSums(s, id, before, after);
    assert before[n] in before;
  }

  /** For every pool of an assembly without failures whose five heights are distinct, in whatever order the rates
      of the moment put them: one snapshot for each comes out, newest first, and the one for horizon `n` holds
      the window sum from that horizon's height up to the requested one. */
  lemma {:induction false} HorizonsHoldWindowSums(s: Source, envs: seq<Env>, h: nat, ids: seq<nat>, i: nat,
                                after: seq<VolumeAt>, n: nat)
    requires Assembled(s, envs, h, ids, i) && n <= |HORIZONS|
    requires DistinctHorizons(envs, h)
    requires RelativeOutcome(s, ids[i], Valued(s, VolumesOf(envs, h, ids, i)), after)
    ensures |after| == |HORIZONS| + 1 && NewestToOldest(after)
    ensures exists v :: v in after && HoldsHorizon(s, envs, h, ids[i], n, v)
  {
    AssembledSnapshots(s, envs, h, ids, i);
    var before := Valued(s, VolumesOf(envs, h, ids, i));
    DistinctSnapshots(envs, h, before);
    OneHoldsWindowSum(s, ids[i], before, after, n);
    SummedHorizon(s, envs, h, ids[i], n, before[n]);
  }

  /** If the block counts grow from horizon to horizon, as they do at a steady or rising rate, the snapshots come
      out in the horizons' order, and the first one, of the requested height, holds 0. */
  lemma {:induction false} HorizonsInOrder(s: Source, envs: seq<Env>, h: nat, ids: seq<nat>, i: nat,
                         after: seq<VolumeAt>, n: nat)
    requires Assembled(s, envs, h, ids, i) && BlocksGrow(envs) && n <= |HORIZONS|
    requires RelativeOutcome(s, ids[i], Valued(s, VolumesOf(envs, h, ids, i)), after)
    ensures |after| == |HORIZONS| + 1
    ensures HoldsHorizon(s, envs, h, ids[i], n, after[n])
    ensures after[0].relativeVolumeUSD == [0.0]
  {
    AssembledSnapshots(s, envs, h, ids, i);
    var before := Valued(s, VolumesOf(envs, h, ids, i));
    GrowingIsNewestFirst(envs, h, before);
    SumsInPlace(s, ids[i], before, after, n);
    SummedHorizon(s, envs, h, ids[i], n, before[n]);
    SumsInPlace(s, ids[i], before, after, 0);
    NewestHoldsZero(s, ids[i], h);
  }

  lemma {:induction false} GrowingIsNewestFirst(envs: seq<Env>, h: nat, vols: seq<VolumeAt>)
    requires Environments(envs) && BlocksGrow(envs) && |vols| == |HORIZONS| + 1
    requires forall n :: 0 <= n <= |HORIZONS| ==> vols[n].blockHeight == HorizonHeight(envs, h, n)
    ensures NewestToOldest(vols)
  {
    HeightsDecreaseIff(envs, h);
    var hs := HorizonHeights(envs, h);
    forall m, n | 0 <= m < n < |vols| ensures vols[m].blockHeight > vols[n].blockHeight {
      assert hs[m] > hs[n];
    }
  }

  /** The rate of the clock that dates the blocks, at every fetch. */
  ghost predicate Steady(s: Source, envs: seq<Env>) {
    0 < BlockClock.EffectiveRate(s.clock.rate) <= BlockClock.HOUR
    && forall n :: 0 <= n < |envs| ==> envs[n].averageBlockTime == BlockClock.AverageBlockTime(s.clock.rate)
  }

  /** Hours before the requested height that horizon `n` stands for. */
  function Hours(n: nat): nat
    requires n <= |HORIZONS|
  {
    if n == 0 then 0 else HORIZONS[n - 1] / BlockClock.HOUR
  }

  lemma {:induction false} SteadyGrows(s: Source, envs: seq<Env>)
    requires Environments(envs) && Steady(s, envs)
    ensures BlocksGrow(envs)
  {
    BlockClock.LookBackForm(1, BlockClock.EffectiveRate(s.clock.rate));
    MulMonotone(1, BlockClock.EffectiveRate(s.clock.rate), BlockClock.AverageBlockTime(s.clock.rate));
    assert envs[1].averageBlockTime == BlockClock.AverageBlockTime(s.clock.rate) <= BlockClock.HOUR by {
      SteadyBlockTime(BlockClock.EffectiveRate(s.clock.rate));
    }
    NeverSlowerGrows(envs);
  }

  lemma SteadyBlockTime(bph: int)
    requires 0 < bph <= BlockClock.HOUR
    ensures BlockClock.HOUR / bph <= BlockClock.HOUR
  {
    var q := BlockClock.HOUR / bph;
    assert q * bph <= BlockClock.HOUR;
    if q > 0 {
      MulMonotone(1, bph, q);
    }
  }

  /** The hours' rounding error is less than one block. */
  predicate IsExact(hours: nat, bph: int)
    requires 0 < bph
  {
    hours * (BlockClock.HOUR % bph) < BlockClock.HOUR / bph
  }

  /** At the clock's own rate, for the current height: horizon `n` is dated at least its number of hours before the
      current block, and exactly that if and only if its hours times the hour's remainder by the rate are below
      the average block time. Together with HorizonsInOrder: what is published for it is the volume since then. */
  lemma {:induction false} HorizonIsHoursBack(s: Source, envs: seq<Env>, n: nat)
    requires Environments(envs) && Steady(s, envs) && 0 < n <= |HORIZONS|
    requires 0 <= HorizonHeight(envs, s.clock.height, n)
    requires s.clock.height - HorizonHeight(envs, s.clock.height, n) <= BlockClock.MAX_EXACT_BLOCKS
    ensures BlocksGrow(envs)
    ensures BlockClock.BlockToTimestamp(s.clock, HorizonHeight(envs, s.clock.height, n))
      <= s.clock.time - Hours(n) * BlockClock.HOUR
    ensures BlockClock.BlockToTimestamp(s.clock, HorizonHeight(envs, s.clock.height, n))
        == s.clock.time - Hours(n) * BlockClock.HOUR
      <==> IsExact(Hours(n), BlockClock.EffectiveRate(s.clock.rate))
  {
    SteadyGrows(s, envs);
    assert HORIZONS[n - 1] == Hours(n) * BlockClock.HOUR;
    BlockTimeIsPositive(envs, n);
    assert envs[n].averageBlockTime == BlockClock.AverageBlockTime(s.clock.rate);
    BlockClock.LookBackRoundTrip(s.clock, Hours(n));
  }

  // ----- The published statuses -----

  /** What valuing and sweeping makes of one pool's status. */
  ghost predicate Calculated(s: Source, p: PoolStatus, q: PoolStatus) {
    q == p.(volumes := q.volumes) && RelativeOutcome(s, p.poolId, Valued(s, p.volumes), q.volumes)
  }

  predicate VolumesFit(vols: seq<VolumeAt>) {
    forall v :: v in vols ==> 0 <= v.blockHeight < TWO_63
  }

  /** The loop over the pools. No pool's calculation can fail. */
  method CalculateVolumes(indexer: Calculator, ps: array<PoolStatus>)
    requires indexer.prices.Valid() && indexer.tracker.currentBlockHeight < TWO_63
    requires AllFit(ps[..])
    modifies ps
    ensures forall i :: 0 <= i < ps.Length ==> Calculated(indexer.Reads(), old(ps[i]), ps[i])
  {
    assert forall k :: 0 <= k < ps.Length ==> ps[k] == ps[..][k];
    for i := 0 to ps.Length
      invariant forall k :: 0 <= k < i ==> Calculated(indexer.Reads(), old(ps[k]), ps[k])
      invariant forall k :: i <= k < ps.Length ==> ps[k] == old(ps[k])
    {
      ps[i] := CalculateOne(indexer, ps[i]);
    }
  }

  method CalculateOne(indexer: Calculator, p: PoolStatus) returns (q: PoolStatus)
    requires indexer.prices.Valid() && indexer.tracker.currentBlockHeight < TWO_63 && VolumesFit(p.volumes)
    ensures Calculated(indexer.Reads(), p, q)
  {
    var volumes := new VolumeAt[|p.volumes|](k requires 0 <= k < |p.volumes| => p.volumes[k]);
    assert volumes[..] == p.volumes;
    forall k | 0 <= k < volumes.Length ensures 0 <= volumes[k].blockHeight < TWO_63 {
      assert p.volumes[k] in p.volumes;
    }
    indexer.CalculatePoolVolumes(p.poolId, volumes);
    q := p.(volumes := volumes[..]);
  }

  /** Lookups succeed only at heights below 2^63. */
  ghost predicate LooksFit(env: Env) {
    forall t: nat, id: nat :: env.look(t, id).Some? ==> t < TWO_63
  }

  predicate AllFit(ps: seq<PoolStatus>) {
    forall k :: 0 <= k < |ps| ==> VolumesFit(ps[k].volumes)
  }

  lemma StatusesFit(env: Env, h: nat, ids: seq<nat>)
    requires LooksFit(env)
    ensures AllFit(StatusesAt(env, h, ids))
  {
  }

  lemma {:induction false} GainedFits(ids: seq<nat>, at: seq<PoolStatus>, n: nat, j: nat)
    requires n <= |at| == |ids| && AllFit(at)
    ensures VolumesFit(Gained(ids, at, n, j))
  {
    if n > 0 {
      GainedFits(ids, at, n - 1, j);
    }
  }

  lemma CombinedFits(env: Env, height: int, before: nat, ps: seq<PoolStatus>)
    requires env.averageBlockTime > 0 && LooksFit(env) && AllFit(ps)
    ensures AllFit(Combined(env, height, before, ps))
  {
    var h := Target(env, height, before);
    StatusesFit(env, h, Ids(ps));
    forall j | 0 <= j < |ps| ensures VolumesFit(ps[j].volumes + Gained(Ids(ps), StatusesAt(env, h, Ids(ps)), |ps|, j)) {
      GainedFits(Ids(ps), StatusesAt(env, h, Ids(ps)), |ps|, j);
    }
  }

  lemma {:induction false} OneMoreFits(envs: seq<Env>, height: int, ps: seq<PoolStatus>, n: nat)
    requires Environments(envs) && n < |HORIZONS| && LooksFit(envs[n + 1])
    requires AllFit(AfterHorizons(envs, height, ps, n))
    ensures AllFit(AfterHorizons(envs, height, ps, n + 1))
  {
    OneHorizon(envs, height, ps, n);
    CombinedFits(envs[n + 1], height, HORIZONS[n], AfterHorizons(envs, height, ps, n));
  }

  lemma {:induction false} AssembledFits(envs: seq<Env>, height: int, ps: seq<PoolStatus>, n: nat)
    requires Environments(envs) && n <= |HORIZONS| && AllFit(ps)
    requires forall k :: 0 <= k < |envs| ==> LooksFit(envs[k])
    ensures AllFit(AfterHorizons(envs, height, ps, n))
  {
    if n > 0 {
      AssembledFits(envs, height, ps, n - 1);
      OneMoreFits(envs, height, ps, n - 1);
    }
  }

  /** `getPoolsOfInterestStatuses` as a whole: the assembly, failures notwithstanding, then the calculation for
      every pool. `indexer` is the state when the calculation starts. */
  method GetPoolsOfInterestStatuses(indexer: Calculator, envs: seq<Env>, height: nat, ids: seq<nat>)
    returns (ps: array<PoolStatus>, h: nat, ok: bool)
    requires Environments(envs) && forall k :: 0 <= k < |envs| ==> LooksFit(envs[k])
    requires indexer.prices.Valid() && indexer.tracker.currentBlockHeight < TWO_63
    ensures h == if height == 0 then envs[0].current else height
    ensures var assembled := AfterHorizons(envs, Int64(h), StatusesAt(envs[0], h, ids), |HORIZONS|);
      ps.Length == |assembled| && forall i :: 0 <= i < ps.Length ==> Calculated(indexer.Reads(), assembled[i], ps[i])
    ensures ok <==> AllFound(envs[0], h, ids) && HorizonsFound(envs, Int64(h), StatusesAt(envs[0], h, ids), |HORIZONS|)
  {
    ps, h, ok := AssembleStatuses(envs, height, ids);
    StatusesFit(envs[0], h, ids);
    AssembledFits(envs, Int64(h), StatusesAt(envs[0], h, ids), |HORIZONS|);
    CalculateVolumes(indexer, ps);
  }

  /** What that method returns for a pool, if nothing failed and the block counts grow: the status of the pool
      asked for, with the liquidity found there, and with the horizons' volumes, dollar values and window
      sums in their order. */
  lemma {:induction false} PublishedInOrder(s: Source, envs: seq<Env>, h: nat, ids: seq<nat>, i: nat, p: PoolStatus, n: nat)
    requires Assembled(s, envs, h, ids, i) && BlocksGrow(envs) && n <= |HORIZONS|
    requires var assembled := AfterHorizons(envs, Int64(h), StatusesAt(envs[0], h, ids), |HORIZONS|);
      i < |assembled| && Calculated(s, assembled[i], p)
    ensures p.poolId == ids[i] && |p.volumes| == |HORIZONS| + 1
    ensures envs[0].look(h, ids[i]).Some? && p.totalLiquidity == envs[0].look(h, ids[i]).value.liquidity
    ensures HoldsHorizon(s, envs, h, ids[i], n, p.volumes[n])
  {
    FiveSnapshots(envs, h, ids, i);
    HorizonsInOrder(s, envs, h, ids, i, p.volumes, n);
  }
}
