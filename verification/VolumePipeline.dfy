/** The relative-volume pipeline of internal/indexer/volume.go, end to end: collect the cached pool states
    of a height range, price them by estimate, sort both lists newest first, and sweep. */
module VolumePipeline {
  import opened Types
  import opened MachineInts
  import opened BlockClock
  import opened PriceArrays
  import opened PriceEstimate
  import opened PriceIndex
  import opened PoolCache
  import opened VolumeSweep
  import Sorting

  const BASE_VOLUME_DENOM: string := "uosmo"

  // ----- What is fetched -----

  /** Everything the pipeline reads: the cached pools, the price index and the clock. */
  datatype Source = Source(pools: PoolTable, prices: Prices, clock: Clock)

  function EstimateAt(s: Source, height: nat, denom: string): Estimation {
    EstimateOf(ArrayOf(s.prices, denom), BlockToTimestamp(s.clock, height))
  }

  /** The record of one coin, if it has the denomination and its price estimate is accepted. */
  function CoinPoint(e: Estimation, coin: Coin, height: nat, denom: string): seq<PriceAt> {
    if coin.denom == denom && AcceptedSigned(e) then [PriceAt(height, coin.amount, e.price)] else []
  }

  /** The priced records of one denomination among the coins of one cached pool state. */
  function CoinPoints(s: Source, coins: seq<Coin>, height: nat, denom: string): seq<PriceAt> {
    if coins == [] then []
    else
      var init, coin := coins[..|coins| - 1], coins[|coins| - 1];
      CoinPoints(s, init, height, denom) + CoinPoint(EstimateAt(s, height, denom), coin, height, denom)
  }

  function PointsAt(s: Source, id: nat, height: nat, denom: string): seq<PriceAt> {
    match Lookup(s.pools, height, id)
    case None => []
    case Some(pool) => CoinPoints(s, pool.volume, height, denom)
  }

  /** The priced records of one denomination over heights lo..hi-1, oldest first. */
  function Fetched(s: Source, id: nat, lo: nat, hi: nat, denom: string): seq<PriceAt>
    requires lo <= hi
    decreases hi
  {
    if lo == hi then [] else Fetched(s, id, lo, hi - 1, denom) + PointsAt(s, id, hi - 1, denom)
  }

  function PointsOf(vm: map<string, seq<PriceAt>>, denom: string): seq<PriceAt> {
    if denom in vm then vm[denom] else []
  }

  class Calculator {
    const pools: PoolMap
    const prices: PriceMap
    const tracker: BlockTracker

    constructor (pools: PoolMap, prices: PriceMap, tracker: BlockTracker)
      ensures this.pools == pools && this.prices == prices && this.tracker == tracker
    {
      this.pools, this.prices, this.tracker := pools, prices, tracker;
    }

    function Reads(): Source
      reads pools, prices, tracker
    {
      Source(pools.pools, prices.prices, tracker.State())
    }

    method FetchVolumeValuesPerBlockRange(min: nat, max: nat, poolId: nat) returns (vm: map<string, seq<PriceAt>>)
      requires prices.Valid() && min <= max
      ensures forall denom :: PointsOf(vm, denom) == Fetched(Reads(), poolId, min, max + 1, denom)
    {
      var s := Reads();
      vm := map[];
      for blockHeight := min to max + 1
        invariant forall denom :: PointsOf(vm, denom) == Fetched(s, poolId, min, blockHeight, denom)
      {
        var poolState := pools.Get(blockHeight, poolId);
        if poolState.Some? {
          var blockTime := BlockToTimestamp(tracker.State(), blockHeight);
          vm := AddPool(vm, poolState.value.volume, blockHeight, blockTime);
        }
      }
    }

    method EstimateFor(denom: string, ghost height: nat, blockTime: int) returns (e: Estimation)
      requires prices.Valid() && blockTime == BlockToTimestamp(tracker.State(), height)
      ensures e == EstimateAt(Reads(), height, denom)
    {
      e := prices.Estimate(blockTime, denom);
    }

    /** The loop over the coins of one pool state. */
    method AddPool(vm: map<string, seq<PriceAt>>, coins: seq<Coin>, height: nat, blockTime: int)
      returns (out: map<string, seq<PriceAt>>)
      requires prices.Valid() && blockTime == BlockToTimestamp(tracker.State(), height)
      ensures Collected(Reads(), vm, out, coins, height)
    {
      ghost var s := Reads();
      out := vm;
      for i := 0 to |coins|
        invariant Collected(s, vm, out, coins[..i], height)
      {
        var e := EstimateFor(coins[i].denom, height, blockTime);
        ghost var was := out;
        out := AddCoin(out, coins[i], height, e);
        CollectMore(s, vm, was, out, coins, i, height, e);
      }
      assert coins[..|coins|] == coins;
    }

    /** The loop over the snapshots' heights. */
    method HeightRange(volumes: array<VolumeAt>) returns (min: nat, max: nat)
      requires forall i :: 0 <= i < volumes.Length ==> 0 <= volumes[i].blockHeight < TWO_63
      ensures min == Oldest(Reads(), volumes[..]) && max == Newest(volumes[..]) && max < TWO_63
    {
      ghost var s, vols := Reads(), volumes[..];
      min, max := tracker.currentBlockHeight + 10, 0;
      for i := 0 to volumes.Length
        invariant max < TWO_63
        invariant min == Oldest(s, vols[..i]) && max == Newest(vols[..i])
      {
        assert vols[..i + 1][..i] == vols[..i];
        if Uint64(volumes[i].blockHeight) > max {
          max := Uint64(volumes[i].blockHeight);
        }
        if Uint64(volumes[i].blockHeight) < min {
          min := Uint64(volumes[i].blockHeight);
        }
      }
      assert vols[..volumes.Length] == vols;
    }

    /** Fetches, sorts both lists newest first, and sweeps. */
    method CalculateRelativeVolumeValue(poolId: nat, volumes: array<VolumeAt>)
      requires prices.Valid() && tracker.currentBlockHeight < TWO_63
      requires forall i :: 0 <= i < volumes.Length ==> 0 <= volumes[i].blockHeight < TWO_63
      modifies volumes
      ensures RelativeOutcome(Reads(), poolId, old(volumes[..]), volumes[..])
    {
      ghost var s, before := Reads(), volumes[..];
      var min, max := HeightRange(volumes);
      if max < min {
        RangeIsNonEmpty(s, before);
        return;
      }
      var uosmoVP := BaseRecords(min, max, poolId);
      if |uosmoVP| == 0 {
        return;
      }
      SortAndSweep(uosmoVP, volumes);
    }

    /** The fetched records of the base denomination, none if it is not among the denominations. */
    method BaseRecords(min: nat, max: nat, poolId: nat) returns (points: seq<PriceAt>)
      requires prices.Valid() && min <= max < TWO_63
      ensures points == Fetched(Reads(), poolId, min, max + 1, BASE_VOLUME_DENOM)
      ensures forall p :: p in points ==> p.height < TWO_63
    {
      var vpm := FetchVolumeValuesPerBlockRange(min, max, poolId);
      points := [];
      assert PointsOf(vpm, BASE_VOLUME_DENOM) == Fetched(Reads(), poolId, min, max + 1, BASE_VOLUME_DENOM);
      if BASE_VOLUME_DENOM in vpm {
        points := vpm[BASE_VOLUME_DENOM];
      }
      FetchedInRange(Reads(), poolId, min, max + 1, BASE_VOLUME_DENOM);
    }

    /** Both sorts, in place for the snapshots, and the sweep. */
    method SortAndSweep(points: seq<PriceAt>, volumes: array<VolumeAt>)
      requires points != [] && forall p :: p in points ==> p.height < TWO_63
      requires forall i :: 0 <= i < volumes.Length ==> 0 <= volumes[i].blockHeight < TWO_63
      modifies volumes
      ensures SortedAndSwept(points, old(volumes[..]), volumes[..])
    {
      ghost var before := volumes[..];
      WrappingOrderAgrees(points, before);
      var uosmoVP := Sorting.SortFunc(points, ComparePoints, PointKey);
      var sorted := Sorting.SortFunc(volumes[..], CompareVolumes, VolumeKey);
      assert |multiset(uosmoVP)| == |multiset(points)| && |multiset(sorted)| == |multiset(before)|;
      forall i | 0 <= i < volumes.Length {
        volumes[i] := sorted[i];
      }
      assert volumes[..] == sorted;
      CalculateCumulatively(uosmoVP, volumes);
    }

    method CalculateVolumeValueAt(height: int, coins: seq<Coin>) returns (values: seq<real>)
      requires prices.Valid()
      ensures values == ValuesOf(Reads(), Uint64(height), coins)
    {
      var timestamp := BlockToTimestamp(tracker.State(), Uint64(height));
      values := ValuesAtTime(timestamp, coins);
    }

    /** The loop over the coins. */
    method ValuesAtTime(timestamp: int, coins: seq<Coin>) returns (values: seq<real>)
      requires prices.Valid()
      ensures |values| == |coins|
      ensures forall k :: 0 <= k < |coins| ==> values[k] == ValueAtTime(prices.prices, timestamp, coins[k])
    {
      values := [];
      for i := 0 to |coins|
        invariant |values| == i
        invariant forall k :: 0 <= k < i ==> values[k] == ValueAtTime(prices.prices, timestamp, coins[k])
      {
        var e := prices.Estimate(timestamp, coins[i].denom);
        var value := 0.0;
        if AcceptedAbsolute(e) {
          value := CalculatePrice(coins[i].amount, e.price);
        }
        values := values + [value];
      }
    }

    /** Values every snapshot, then computes the relative volumes. */
    method CalculatePoolVolumes(poolId: nat, volumes: array<VolumeAt>)
      requires prices.Valid() && tracker.currentBlockHeight < TWO_63
      requires forall i :: 0 <= i < volumes.Length ==> 0 <= volumes[i].blockHeight < TWO_63
      modifies volumes
      ensures RelativeOutcome(Reads(), poolId, Valued(Reads(), old(volumes[..])), volumes[..])
    {
      ghost var s, before := Reads(), volumes[..];
      for i := 0 to volumes.Length
        invariant forall k :: 0 <= k < i ==> volumes[k] == ValuedAt(s, before[k])
        invariant forall k :: i <= k < volumes.Length ==> volumes[k] == before[k]
      {
        var usd := CalculateVolumeValueAt(volumes[i].blockHeight, volumes[i].volume);
        volumes[i] := volumes[i].(volumeUSD := usd);
      }
      assert volumes[..] == Valued(s, before);
      CalculateRelativeVolumeValue(poolId, volumes);
    }
  }

  ghost predicate Collected(s: Source, vm: map<string, seq<PriceAt>>, out: map<string, seq<PriceAt>>,
                            coins: seq<Coin>, height: nat)
  {
    forall denom :: PointsOf(out, denom) == PointsOf(vm, denom) + CoinPoints(s, coins, height, denom)
  }

  lemma CollectMore(s: Source, vm: map<string, seq<PriceAt>>, was: map<string, seq<PriceAt>>,
                    out: map<string, seq<PriceAt>>, coins: seq<Coin>, i: nat, height: nat, e: Estimation)
    requires i < |coins| && e == EstimateAt(s, height, coins[i].denom)
    requires Collected(s, vm, was, coins[..i], height)
    requires forall denom :: PointsOf(out, denom) == PointsOf(was, denom) + CoinPoint(e, coins[i], height, denom)
    ensures Collected(s, vm, out, coins[..i + 1], height)
  {
    forall denom ensures PointsOf(out, denom) == PointsOf(vm, denom) + CoinPoints(s, coins[..i + 1], height, denom) {
      NextCoin(s, coins, i, height, denom, e);
      Associate(PointsOf(vm, denom), CoinPoints(s, coins[..i], height, denom), CoinPoint(e, coins[i], height, denom));
    }
  }

  lemma Associate(a: seq<PriceAt>, b: seq<PriceAt>, c: seq<PriceAt>)
    ensures (a + b) + c == a + (b + c)
  {
  }

  method AddCoin(vm: map<string, seq<PriceAt>>, coin: Coin, height: nat, e: Estimation)
    returns (out: map<string, seq<PriceAt>>)
    ensures forall denom :: PointsOf(out, denom) == PointsOf(vm, denom) + CoinPoint(e, coin, height, denom)
  {
    var vml := if coin.denom in vm then vm[coin.denom] else [];
    out := vm;
    if e.error <= 24 * HOUR {
      out := out[coin.denom := vml + [PriceAt(height, coin.amount, e.price)]];
    }
  }

  lemma NextCoin(s: Source, coins: seq<Coin>, i: nat, height: nat, denom: string, e: Estimation)
    requires i < |coins| && e == EstimateAt(s, height, coins[i].denom)
    ensures CoinPoints(s, coins[..i + 1], height, denom)
      == CoinPoints(s, coins[..i], height, denom) + CoinPoint(e, coins[i], height, denom)
  {
    assert coins[..i + 1][..i] == coins[..i];
  }

  /** A coin's dollar value at a height, or zero if the nearest price is more than a day away. */
  function ValueOf(s: Source, height: nat, coin: Coin): real {
    ValueAtTime(s.prices, BlockToTimestamp(s.clock, height), coin)
  }

  function ValueAtTime(prices: Prices, t: int, coin: Coin): real {
    var e := EstimateOf(ArrayOf(prices, coin.denom), t);
    if AcceptedAbsolute(e) then CalculatePrice(coin.amount, e.price) else 0.0
  }

  function ValuesOf(s: Source, height: nat, coins: seq<Coin>): seq<real> {
    seq(|coins|, k requires 0 <= k < |coins| => ValueOf(s, height, coins[k]))
  }

  function ValuedAt(s: Source, v: VolumeAt): VolumeAt {
    v.(volumeUSD := ValuesOf(s, Uint64(v.blockHeight), v.volume))
  }

  function Valued(s: Source, vols: seq<VolumeAt>): seq<VolumeAt> {
    seq(|vols|, k requires 0 <= k < |vols| => ValuedAt(s, vols[k]))
  }

  // ----- Sorting by a wrapping difference -----

  /** Newest first, as an ascending key. */
  function PointKey(p: PriceAt): int { 0 - p.height }

  function VolumeKey(v: VolumeAt): int { 0 - v.blockHeight }

  /** `int(b.height - a.height)` on uint64 heights. */
  function ComparePoints(a: PriceAt, b: PriceAt): int { Int64(Uint64(b.height - a.height)) }

  /** `int(b.BlockHeight - a.BlockHeight)` on int64 heights. */
  function CompareVolumes(a: VolumeAt, b: VolumeAt): int { Int64(b.blockHeight - a.blockHeight) }

  /** The sign of the wrapped difference is right for exactly the differences that fit int64. */
  lemma WrappedSignIff(a: nat, b: nat)
    requires a < TWO_64 && b < TWO_64
    ensures (Int64(Uint64(b - a)) < 0 <==> b < a) && (Int64(Uint64(b - a)) > 0 <==> b > a)
      <==> -TWO_63 <= b - a < TWO_63
  {
  }

  /** Heights 2^63 apart compare the wrong way round. */
  lemma WrappedSignFails()
    ensures ComparePoints(PriceAt(0, 0, 0.0), PriceAt(TWO_63, 0, 0.0)) < 0
  {
  }

  lemma WrappingOrderAgrees(pts: seq<PriceAt>, vols: seq<VolumeAt>)
    requires forall p :: p in pts ==> p.height < TWO_63
    requires forall v :: v in vols ==> 0 <= v.blockHeight < TWO_63
    ensures Sorting.Agrees(pts, ComparePoints, PointKey)
    ensures Sorting.Agrees(vols, CompareVolumes, VolumeKey)
  {
  }

  // ----- The outcome -----

  function Oldest(s: Source, vols: seq<VolumeAt>): nat {
    if vols == [] then s.clock.height + 10
    else Min(Oldest(s, vols[..|vols| - 1]), Uint64(vols[|vols| - 1].blockHeight))
  }

  function Newest(vols: seq<VolumeAt>): nat {
    if vols == [] then 0
    else Max(Newest(vols[..|vols| - 1]), Uint64(vols[|vols| - 1].blockHeight))
  }

  lemma RangeCovers(s: Source, vols: seq<VolumeAt>)
    ensures forall v :: v in vols ==> Oldest(s, vols) <= Uint64(v.blockHeight) <= Newest(vols)
    ensures vols != [] ==> exists v :: v in vols && Uint64(v.blockHeight) == Newest(vols)
  {
    forall v | v in vols ensures Oldest(s, vols) <= Uint64(v.blockHeight) <= Newest(vols) {
      var k :| 0 <= k < |vols| && vols[k] == v;
      InRange(s, vols, k);
    }
    if vols != [] {
      var k := NewestIndex(vols);
      assert vols[k] in vols;
    }
  }

  lemma {:induction false} InRange(s: Source, vols: seq<VolumeAt>, k: nat)
    requires k < |vols|
    ensures Oldest(s, vols) <= Uint64(vols[k].blockHeight) <= Newest(vols)
  {
    if k < |vols| - 1 {
      InRange(s, vols[..|vols| - 1], k);
    }
  }

  lemma {:induction false} NewestIndex(vols: seq<VolumeAt>) returns (k: nat)
    requires vols != []
    ensures k < |vols| && Uint64(vols[k].blockHeight) == Newest(vols)
  {
    k := |vols| - 1;
    if k > 0 && Uint64(vols[k].blockHeight) < Newest(vols[..k]) {
      k := NewestIndex(vols[..k]);
    }
  }

  /** The lower end of the range is exactly the lowest snapshot, but at most ten above the current height. */
  lemma {:induction false} OldestIs(s: Source, vols: seq<VolumeAt>)
    ensures Oldest(s, vols) <= s.clock.height + 10
    ensures Oldest(s, vols) == s.clock.height + 10 || exists v :: v in vols && Uint64(v.blockHeight) == Oldest(s, vols)
  {
    if vols != [] {
      var init, last := vols[..|vols| - 1], vols[|vols| - 1];
      assert vols == init + [last];
      OldestIs(s, init);
      assert last in vols;
    }
  }

  lemma RangeIsNonEmpty(s: Source, vols: seq<VolumeAt>)
    ensures vols != [] ==> Oldest(s, vols) <= Newest(vols)
  {
    RangeCovers(s, vols);
    if vols != [] {
      assert vols[0] in vols;
    }
  }

  lemma {:induction false} FetchedInRange(s: Source, id: nat, lo: nat, hi: nat, denom: string)
    requires lo <= hi
    ensures forall p :: p in Fetched(s, id, lo, hi, denom) ==> lo <= p.height < hi
    decreases hi
  {
    if lo < hi {
      FetchedInRange(s, id, lo, hi - 1, denom);
      PointsHaveHeight(s, id, hi - 1, denom);
    }
  }

  lemma PointsHaveHeight(s: Source, id: nat, height: nat, denom: string)
    ensures forall p :: p in PointsAt(s, id, height, denom) ==> p.height == height
  {
    if Lookup(s.pools, height, id).Some? {
      CoinsHaveHeight(s, Lookup(s.pools, height, id).value.volume, height, denom);
    }
  }

  lemma {:induction false} CoinsHaveHeight(s: Source, coins: seq<Coin>, height: nat, denom: string)
    ensures forall p :: p in CoinPoints(s, coins, height, denom) ==>
      p.height == height && p.price == EstimateAt(s, height, denom).price && AcceptedSigned(EstimateAt(s, height, denom))
  {
    if coins != [] {
      CoinsHaveHeight(s, coins[..|coins| - 1], height, denom);
    }
  }

  /** The base-denomination records between the oldest and the newest snapshot, oldest first. */
  function WindowPoints(s: Source, id: nat, vols: seq<VolumeAt>): seq<PriceAt>
    requires vols != []
  {
    RangeIsNonEmpty(s, vols);
    Fetched(s, id, Oldest(s, vols), Newest(vols) + 1, BASE_VOLUME_DENOM)
  }

  /** Nothing happens without snapshots or without priced records; otherwise the snapshots are sorted
      newest first and swept over the records sorted newest first. */
  ghost predicate RelativeOutcome(s: Source, id: nat, before: seq<VolumeAt>, after: seq<VolumeAt>) {
    if before == [] || WindowPoints(s, id, before) == [] then after == before
    else SortedAndSwept(WindowPoints(s, id, before), before, after)
  }

  ghost predicate SortedAndSwept(fetched: seq<PriceAt>, before: seq<VolumeAt>, after: seq<VolumeAt>) {
    exists points, vols ::
      && Sorting.SortOf(fetched, points, PointKey) && Sorting.SortOf(before, vols, VolumeKey)
      && points != [] && after == Swept(points, vols)
  }
}
